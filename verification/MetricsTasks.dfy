/** The worker's flush loop and the registry's update, on the objects they change. */
module MetricsTasks {
  import opened Common
  import opened MetricsKeys
  import opened MetricsState
  import opened MetricsPipeline

  /** How many entries the resource tables of an instance hold. */
  datatype ResourceCounts = ResourceCounts(futures: nat, results: nat, bodies: nat, frames: nat)

  datatype Deployment = Deployment(functionId: string, metrics: FunctionMetricsState, held: ResourceCounts)

  const NO_RESOURCES: ResourceCounts := ResourceCounts(0, 0, 0, 0)

  function Plus(a: ResourceCounts, b: ResourceCounts): ResourceCounts {
    ResourceCounts(a.futures + b.futures, a.results + b.results, a.bodies + b.bodies, a.frames + b.frames)
  }

  /** What the unlocked deployments of a function hold together; None when there is none. */
  function Held(deployments: seq<Deployment>, locked: seq<bool>, f: string): Option<ResourceCounts>
    requires |locked| == |deployments|
  {
    if deployments == [] then None
    else
      var n := |deployments| - 1;
      var before := Held(deployments[..n], locked[..n], f);
      if locked[n] || deployments[n].functionId != f then before
      else Some(Plus(if before.Some? then before.value else NO_RESOURCES, deployments[n].held))
  }

  function SumOver(part: ResourceCounts -> nat, deployments: seq<Deployment>, locked: seq<bool>, f: string): nat
    requires |locked| == |deployments|
  {
    if deployments == [] then 0
    else
      var n := |deployments| - 1;
      SumOver(part, deployments[..n], locked[..n], f) +
      if !locked[n] && deployments[n].functionId == f then part(deployments[n].held) else 0
  }

  /** Each of the four counts is summed by itself. */
  lemma {:induction false} HeldIsSum(deployments: seq<Deployment>, locked: seq<bool>, f: string)
    requires |locked| == |deployments|
    ensures Held(deployments, locked, f).Some?
            <==> exists i :: 0 <= i < |deployments| && !locked[i] && deployments[i].functionId == f
    ensures var held := Held(deployments, locked, f);
            held.Some? ==>
              && held.value.futures == SumOver((c: ResourceCounts) => c.futures, deployments, locked, f)
              && held.value.results == SumOver((c: ResourceCounts) => c.results, deployments, locked, f)
              && held.value.bodies == SumOver((c: ResourceCounts) => c.bodies, deployments, locked, f)
              && held.value.frames == SumOver((c: ResourceCounts) => c.frames, deployments, locked, f)
    ensures Held(deployments, locked, f).None? ==>
              forall part: ResourceCounts -> nat :: SumOver(part, deployments, locked, f) == 0
  {
    if deployments != [] {
      var n := |deployments| - 1;
      HeldIsSum(deployments[..n], locked[..n], f);
      assert forall i :: 0 <= i < n ==> locked[..n][i] == locked[i] && deployments[..n][i] == deployments[i];
    }
  }

  ghost predicate CountsHeld(counts: map<string, ResourceCounts>, deployments: seq<Deployment>, locked: seq<bool>)
    requires |locked| == |deployments|
  {
    forall f :: Held(deployments, locked, f) == if f in counts then Some(counts[f]) else None
  }

  /** The worker's instances as the pipeline sees them. */
  ghost function Snapshot(worker: nat, deployments: seq<Deployment>): seq<Instance>
    reads set d | d in deployments :: d.metrics
  {
    seq(|deployments|, i requires 0 <= i < |deployments|
                         reads set d | d in deployments :: d.metrics =>
      Instance(worker, deployments[i].functionId, true, deployments[i].metrics.Contents()))
  }

  /** Positions whose lock is free, in visiting order. */
  function Unlocked(locked: seq<bool>): seq<nat> {
    if locked == [] then []
    else Unlocked(locked[..|locked| - 1]) + if locked[|locked| - 1] then [] else [|locked| - 1]
  }

  ghost predicate Ascending(order: seq<nat>) {
    forall m, n :: 0 <= m < n < |order| ==> order[m] < order[n]
  }

  lemma AscendingAppend(order: seq<nat>, i: nat)
    requires Ascending(order) && forall x :: x in order ==> x < i
    ensures Ascending(order + [i])
  {
    assert forall m :: 0 <= m < |order| ==> order[m] in order;
  }

  /** The flush visits each deployment whose lock is free once, in the order of the list. */
  lemma {:induction false} UnlockedExactly(locked: seq<bool>)
    ensures forall i: nat :: i in Unlocked(locked) <==> i < |locked| && !locked[i]
    ensures Ascending(Unlocked(locked))
  {
    if locked != [] {
      UnlockedExactly(locked[..|locked| - 1]);
      AscendingAppend(Unlocked(locked[..|locked| - 1]), |locked| - 1);
    }
  }

  method AppendCounters(a: map<MetricKey, nat>, b: map<MetricKey, nat>) returns (r: map<MetricKey, nat>)
    ensures r == AddCounters(a, b)
  {
    r := a;
    var todo := b.Keys;
    while todo != {}
      invariant todo <= b.Keys
      invariant r.Keys == a.Keys + (b.Keys - todo)
      invariant forall k :: k in r ==> r[k] == Count(a, k) + if k in todo then 0 else Count(b, k)
    {
      var k :| k in todo;
      if k !in r {
        r := r[k := 0];
      }
      r := r[k := r[k] + b[k]];
      todo := todo - {k};
    }
  }

  method AppendGauges(a: map<MetricKey, int>, b: map<MetricKey, int>) returns (r: map<MetricKey, int>)
    ensures r == a + b
  {
    r := a;
    var todo := b.Keys;
    while todo != {}
      invariant todo <= b.Keys
      invariant r.Keys == a.Keys + (b.Keys - todo)
      invariant forall k :: k in r ==> r[k] == if k in b && k !in todo then b[k] else a[k]
    {
      var k :| k in todo;
      r := r[k := b[k]];
      todo := todo - {k};
    }
  }

  method AppendDelta(a: Delta, b: Delta) returns (r: Delta)
    ensures r == Append(a, b)
  {
    var counters := AppendCounters(a.counters, b.counters);
    var gauges := AppendGauges(a.gauges, b.gauges);
    r := Delta(counters, gauges);
  }

  lemma AppendToNothing(d: Delta)
    ensures Append(NO_DELTA, d) == d
  {
  }

  ghost predicate ValidDeployments(deployments: seq<Deployment>)
    reads set d | d in deployments :: d.metrics
  {
    && (forall i :: 0 <= i < |deployments| ==> deployments[i].metrics.Valid())
    && (forall i, j :: 0 <= i < j < |deployments| ==> deployments[i].metrics != deployments[j].metrics)
  }

  /** One turn of the flush loop, for a deployment whose lock is free. */
  method FlushDeployment(
      ghost worker: nat, deployments: seq<Deployment>, i: nat, m: Message)
    returns (after: Option<Message>)
    requires i < |deployments| && ValidDeployments(deployments)
    modifies deployments[i].metrics
    ensures ValidDeployments(deployments)
    ensures var one := FlushOne(old(Snapshot(worker, deployments)), worker, i, m);
            && after.Some? == one.Some?
            && (after.Some? ==> one == Some((Snapshot(worker, deployments), after.value)))
  {
    ghost var before := Snapshot(worker, deployments);
    var delta := deployments[i].metrics.FlushDelta();
    if delta.None? {
      return None;
    }
    assert Snapshot(worker, deployments) == before[i := before[i].(metrics := Flushed(before[i].metrics))];
    var f, d := deployments[i].functionId, delta.value;
    if d == NO_DELTA {
      return Some(m);
    }
    if f in m {
      var merged := AppendDelta(m[f], d);
      return Some(m[f := merged]);
    }
    AppendToNothing(d);
    return Some(m[f := d]);
  }

  lemma UnlockedStep(start: seq<Instance>, worker: nat, locked: seq<bool>, i: nat)
    requires i < |locked|
    ensures locked[i] ==> Unlocked(locked[..i + 1]) == Unlocked(locked[..i])
    ensures !locked[i] ==>
              FlushAll(start, worker, Unlocked(locked[..i + 1])) ==
              match FlushAll(start, worker, Unlocked(locked[..i]))
              case None => None
              case Some((after, m)) => FlushOne(after, worker, i, m)
  {
    assert locked[..i + 1][..i] == locked[..i];
    var order := Unlocked(locked[..i]);
    assert (order + [i])[..|order|] == order;
  }

  /** A failure on the way is a failure of the whole flush. */
  lemma {:induction false} ProvesPanic(start: seq<Instance>, worker: nat, locked: seq<bool>, i: nat)
    requires i < |locked| && FlushAll(start, worker, Unlocked(locked[..i + 1])).None?
    ensures FlushAll(start, worker, Unlocked(locked)).None?
    decreases |locked|
  {
    var n := |locked| - 1;
    if i == n {
      assert locked[..i + 1] == locked;
    } else {
      assert locked[..n][..i + 1] == locked[..i + 1];
      ProvesPanic(start, worker, locked[..n], i);
      var order := Unlocked(locked[..n]);
      assert locked[n] ==> Unlocked(locked) == order;
      assert (order + [n])[..|order|] == order;
    }
  }

  lemma HeldStep(deployments: seq<Deployment>, locked: seq<bool>, i: nat, counts: map<string, ResourceCounts>)
    requires |locked| == |deployments| && i < |deployments| && CountsHeld(counts, deployments[..i], locked[..i])
    ensures var f := deployments[i].functionId;
            var added := counts[f := Plus(if f in counts then counts[f] else NO_RESOURCES, deployments[i].held)];
            CountsHeld(if locked[i] then counts else added, deployments[..i + 1], locked[..i + 1])
  {
    assert deployments[..i + 1][..i] == deployments[..i] && locked[..i + 1][..i] == locked[..i];
  }

  /** Visits the deployments in turn, skips those whose lock is held, and builds the message: the metrics, and
      what the resource tables hold, by function. */
  method WorkerMetricsFlush(
      ghost worker: nat, deployments: seq<Deployment>, locked: seq<bool>)
    returns (message: Option<Message>, counts: map<string, ResourceCounts>)
    requires |locked| == |deployments| && ValidDeployments(deployments)
    modifies set d | d in deployments :: d.metrics
    ensures var flushed := FlushAll(old(Snapshot(worker, deployments)), worker, Unlocked(locked));
            && message.Some? == flushed.Some?
            && (message.Some? ==> flushed == Some((Snapshot(worker, deployments), message.value)))
    ensures message.Some? ==> CountsHeld(counts, deployments, locked)
  {
    var functionMetrics: Message := map[];
    counts := map[];
    ghost var start := Snapshot(worker, deployments);
    for i := 0 to |deployments|
      invariant ValidDeployments(deployments)
      invariant FlushAll(start, worker, Unlocked(locked[..i])) == Some((Snapshot(worker, deployments), functionMetrics))
      invariant CountsHeld(counts, deployments[..i], locked[..i])
    {
      UnlockedStep(start, worker, locked, i);
      HeldStep(deployments, locked, i, counts);
      if locked[i] {
        continue;
      }
      var f := deployments[i].functionId;
      counts := counts[f := Plus(if f in counts then counts[f] else NO_RESOURCES, deployments[i].held)];
      assert deployments[i] in deployments;
      var after := FlushDeployment(worker, deployments, i, functionMetrics);
      if after.None? {
        ProvesPanic(start, worker, locked, i);
        return None, map[];
      }
      functionMetrics := after.value;
    }
    assert locked[..|locked|] == locked && deployments[..|deployments|] == deployments;
    return Some(functionMetrics), counts;
  }

  lemma MergeOneMore(registry: Message, m: Message, todo: set<string>, f: string)
    requires f in m && f in todo
    ensures Merge(registry, m - (todo - {f})) == AppendFor(Merge(registry, m - todo), f, m[f])
  {
  }

  class MetricsRegistry {
    var functionMetrics: Message

    constructor ()
      ensures functionMetrics == map[]
    {
      functionMetrics := map[];
    }

    method AppendEntry(f: string, d: Delta)
      modifies this
      ensures functionMetrics == AppendFor(old(functionMetrics), f, d)
    {
      if f !in functionMetrics {
        functionMetrics := functionMetrics[f := NO_DELTA];
      }
      var merged := AppendDelta(functionMetrics[f], d);
      functionMetrics := functionMetrics[f := merged];
    }

    method Update(message: Message)
      modifies this
      ensures functionMetrics == Merge(old(functionMetrics), message)
    {
      var todo := message.Keys;
      assert message - todo == map[];
      while todo != {}
        invariant todo <= message.Keys
        invariant functionMetrics == Merge(old(functionMetrics), message - todo)
      {
        var f :| f in todo;
        MergeOneMore(old(functionMetrics), message, todo, f);
        AppendEntry(f, message[f]);
        todo := todo - {f};
      }
      assert message - {} == message;
    }
  }
}
