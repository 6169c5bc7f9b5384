/**
 Counters from the instances of every worker to the registry.

 Instances accumulate per-id deltas; a worker flush re-keys and merges the deltas of those
 of its instances whose lock it gets; the message travels to the management thread, which
 appends it to the registry. A discarded instance (removed or replaced) stays in the list
 with `alive` false: requests it is still serving may go on counting, nobody flushes it.
 */
module MetricsPipeline {
  import opened Common
  import opened MetricsKeys
  import opened MetricsState

  type Message = map<string, Delta>

  datatype Instance = Instance(worker: nat, functionId: string, alive: bool, metrics: Metrics)

  datatype World = World(instances: seq<Instance>, inFlight: seq<Message>, registry: Message)

  datatype Action =
    | Deploy(worker: nat, functionId: string)
    | Discard(instance: nat)
    | RegisterMetric(instance: nat, name: string, labels: seq<Label>)
    | AddToCounter(instance: nat, id: nat, delta: nat)
    | SetGauge(instance: nat, id: nat, value: int)
      /** `unlocked` lists the instances whose lock the worker got, in the order it visits them. */
    | Flush(worker: nat, unlocked: seq<nat>)
    | Deliver

  const START: World := World([], [], map[])

  function AddCounters<K>(a: map<K, nat>, b: map<K, nat>): map<K, nat> {
    map k | k in a.Keys + b.Keys :: Count(a, k) + Count(b, k)
  }

  function Append(a: Delta, b: Delta): Delta {
    Delta(AddCounters(a.counters, b.counters), a.gauges + b.gauges)
  }

  const NO_DELTA: Delta := Delta(map[], map[])

  function DeltaFor(m: Message, f: string): Delta {
    if f in m then m[f] else NO_DELTA
  }

  /** Adds one function's delta to a message or to the registry. */
  function AppendFor(m: Message, f: string, d: Delta): Message {
    m[f := Append(DeltaFor(m, f), d)]
  }

  /** `MetricsRegistry::update`. */
  function Merge(registry: Message, m: Message): Message {
    map f | f in registry.Keys + m.Keys :: if f in m then Append(DeltaFor(registry, f), m[f]) else registry[f]
  }

  /** One turn of the flush loop; None when the flush panics. A worker only visits its own live instances. */
  function FlushOne(instances: seq<Instance>, worker: nat, i: nat, m: Message): Option<(seq<Instance>, Message)> {
    if i < |instances| && instances[i].alive && instances[i].worker == worker then
      var inst := instances[i];
      match DeltaOf(inst.metrics)
      case None => None
      case Some(d) =>
        Some((instances[i := inst.(metrics := Flushed(inst.metrics))],
              if d == NO_DELTA then m else AppendFor(m, inst.functionId, d)))
    else
      Some((instances, m))
  }

  function FlushAll(instances: seq<Instance>, worker: nat, unlocked: seq<nat>): Option<(seq<Instance>, Message)> {
    if unlocked == [] then Some((instances, map[]))
    else
      match FlushAll(instances, worker, unlocked[..|unlocked| - 1])
      case None => None
      case Some((after, m)) => FlushOne(after, worker, unlocked[|unlocked| - 1], m)
  }

  function SetMetrics(w: World, i: nat, m: Metrics): World
    requires i < |w.instances|
  {
    w.(instances := w.instances[i := w.instances[i].(metrics := m)])
  }

  /** None when a worker panics in a flush. */
  function Step(w: World, a: Action): Option<World> {
    match a
    case Deploy(worker, f) => Some(w.(instances := w.instances + [Instance(worker, f, true, NO_METRICS)]))
    case Discard(i) =>
      Some(if i < |w.instances| then w.(instances := w.instances[i := w.instances[i].(alive := false)]) else w)
    case RegisterMetric(i, name, labels) =>
      Some(if i < |w.instances|
           then SetMetrics(w, i, Register(w.instances[i].metrics, CanonicalKey(name, labels))) else w)
    case AddToCounter(i, id, delta) =>
      Some(if i < |w.instances| then SetMetrics(w, i, Increment(w.instances[i].metrics, id, delta)) else w)
    case SetGauge(i, id, value) =>
      Some(if i < |w.instances| then SetMetrics(w, i, UpdateGauge(w.instances[i].metrics, id, value)) else w)
    case Flush(worker, unlocked) =>
      (match FlushAll(w.instances, worker, unlocked)
       case None => None
       case Some((instances, m)) => Some(w.(instances := instances, inFlight := w.inFlight + [m])))
    case Deliver =>
      Some(if w.inFlight == [] then w
           else w.(inFlight := w.inFlight[1..], registry := Merge(w.registry, w.inFlight[0])))
  }

  function Run(actions: seq<Action>): Option<World> {
    if actions == [] then Some(START)
    else
      match Run(actions[..|actions| - 1])
      case None => None
      case Some(w) => Step(w, actions[|actions| - 1])
  }

  lemma RunStep(actions: seq<Action>, n: nat, w: World)
    requires n < |actions| && Run(actions[..n]) == Some(w)
    ensures Run(actions[..n + 1]) == Step(w, actions[n])
  {
    assert actions[..n + 1][..n] == actions[..n];
  }

  // ---- Where the increments are ----

  function CountOf(m: Message, f: string, k: MetricKey): nat {
    Count(DeltaFor(m, f).counters, k)
  }

  function CountInFlight(messages: seq<Message>, f: string, k: MetricKey): nat {
    if messages == [] then 0 else CountOf(messages[0], f, k) + CountInFlight(messages[1..], f, k)
  }

  /** What one instance still holds for a series of function `f`. */
  function Pending(inst: Instance, f: string, k: MetricKey): nat {
    if inst.functionId == f && k in inst.metrics.ids then Count(inst.metrics.counters, inst.metrics.ids[k]) else 0
  }

  function PendingIn(instances: seq<Instance>, f: string, k: MetricKey): nat {
    if instances == [] then 0
    else PendingIn(instances[..|instances| - 1], f, k) + Pending(instances[|instances| - 1], f, k)
  }

  /** How many instances were created so far; they are numbered from 0. */
  function Deployed(actions: seq<Action>): nat {
    if actions == [] then 0
    else Deployed(actions[..|actions| - 1]) + if actions[|actions| - 1].Deploy? then 1 else 0
  }

  /** Everything the guest of instance `i` ever added to counter `id`. */
  function Added(actions: seq<Action>, i: nat, id: nat): nat {
    if actions == [] then 0
    else
      var before, last := actions[..|actions| - 1], actions[|actions| - 1];
      Added(before, i, id) +
      if last.AddToCounter? && last.instance == i && last.id == id && i < Deployed(before) then last.delta else 0
  }

  /** Everything the guests of function `f` ever added to the series `k`, over the first `n` instances. */
  function AddedToSeries(actions: seq<Action>, instances: seq<Instance>, n: nat, f: string, k: MetricKey): nat
    requires n <= |instances|
  {
    if n == 0 then 0
    else
      var inst := instances[n - 1];
      AddedToSeries(actions, instances, n - 1, f, k) +
      if inst.functionId == f && k in inst.metrics.ids then Added(actions, n - 1, inst.metrics.ids[k]) else 0
  }

  // ---- Sums ----

  lemma {:induction false} PendingUpdate(instances: seq<Instance>, i: nat, x: Instance, f: string, k: MetricKey)
    requires i < |instances|
    ensures PendingIn(instances[i := x], f, k) + Pending(instances[i], f, k) ==
            PendingIn(instances, f, k) + Pending(x, f, k)
  {
    var n := |instances| - 1;
    if i < n {
      assert instances[i := x][..n] == instances[..n][i := x];
      PendingUpdate(instances[..n], i, x, f, k);
    } else {
      assert instances[i := x][..n] == instances[..n];
    }
  }

  lemma {:induction false} InFlightAppend(messages: seq<Message>, m: Message, f: string, k: MetricKey)
    ensures CountInFlight(messages + [m], f, k) == CountInFlight(messages, f, k) + CountOf(m, f, k)
  {
    if messages == [] {
      assert messages + [m] == [m];
    } else {
      assert (messages + [m])[1..] == messages[1..] + [m];
      InFlightAppend(messages[1..], m, f, k);
    }
  }

  lemma AppendForCounts(m: Message, g: string, d: Delta, f: string, k: MetricKey)
    ensures CountOf(AppendFor(m, g, d), f, k) == CountOf(m, f, k) + if f == g then Count(d.counters, k) else 0
  {
  }

  lemma MergeCounts(registry: Message, m: Message, f: string, k: MetricKey)
    ensures CountOf(Merge(registry, m), f, k) == CountOf(registry, f, k) + CountOf(m, f, k)
  {
  }

  ghost predicate AllInterned(instances: seq<Instance>) {
    forall i :: 0 <= i < |instances| ==> Interned(instances[i].metrics)
  }

  /** Two lists of instances that differ in pending values only. */
  ghost predicate SameSeries(a: seq<Instance>, b: seq<Instance>) {
    && |a| == |b|
    && forall i :: 0 <= i < |a| ==>
         && a[i].functionId == b[i].functionId && a[i].worker == b[i].worker && a[i].alive == b[i].alive
         && a[i].metrics.series == b[i].metrics.series && a[i].metrics.ids == b[i].metrics.ids
  }

  /** A flush leaves unknown ids alone: it would have failed on them. */
  ghost predicate SameUnknown(a: seq<Instance>, b: seq<Instance>)
    requires SameSeries(a, b)
  {
    forall i, id :: 0 <= i < |a| && id >= |a[i].metrics.series| ==>
      Count(a[i].metrics.counters, id) == Count(b[i].metrics.counters, id)
  }

  /** A flush of one instance sends all it holds and leaves nothing behind. */
  lemma FlushEmptiesInstance(inst: Instance, f: string, k: MetricKey)
    requires DeltaOf(inst.metrics).Some?
    ensures Pending(inst, f, k) == if f == inst.functionId then Count(DeltaOf(inst.metrics).value.counters, k) else 0
    ensures Pending(inst.(metrics := Flushed(inst.metrics)), f, k) == 0
  {
  }

  lemma FlushOneMoves(instances: seq<Instance>, worker: nat, i: nat, m: Message, f: string, k: MetricKey)
    requires FlushOne(instances, worker, i, m).Some?
    ensures var (after, m') := FlushOne(instances, worker, i, m).value;
            PendingIn(after, f, k) + CountOf(m', f, k) == PendingIn(instances, f, k) + CountOf(m, f, k)
  {
    if i < |instances| && instances[i].alive && instances[i].worker == worker {
      var inst := instances[i];
      PendingUpdate(instances, i, inst.(metrics := Flushed(inst.metrics)), f, k);
      AppendForCounts(m, inst.functionId, DeltaOf(inst.metrics).value, f, k);
      FlushEmptiesInstance(inst, f, k);
    }
  }

  lemma FlushOneKeepsSeries(instances: seq<Instance>, worker: nat, i: nat, m: Message)
    requires AllInterned(instances) && FlushOne(instances, worker, i, m).Some?
    ensures var after := FlushOne(instances, worker, i, m).value.0;
            AllInterned(after) && SameSeries(instances, after) && SameUnknown(instances, after)
  {
  }

  lemma {:induction false} FlushAllMoves(
      instances: seq<Instance>, worker: nat, unlocked: seq<nat>, f: string, k: MetricKey)
    requires AllInterned(instances) && FlushAll(instances, worker, unlocked).Some?
    ensures var (after, m) := FlushAll(instances, worker, unlocked).value;
            && AllInterned(after) && SameSeries(instances, after) && SameUnknown(instances, after)
            && PendingIn(after, f, k) + CountOf(m, f, k) == PendingIn(instances, f, k)
  {
    if unlocked != [] {
      var n := |unlocked| - 1;
      FlushAllMoves(instances, worker, unlocked[..n], f, k);
      var (mid, m) := FlushAll(instances, worker, unlocked[..n]).value;
      FlushOneMoves(mid, worker, unlocked[n], m, f, k);
      FlushOneKeepsSeries(mid, worker, unlocked[n], m);
    }
  }

  // ---- The invariant ----

  ghost predicate UnknownIdsKept(actions: seq<Action>, instances: seq<Instance>) {
    forall i, id :: 0 <= i < |instances| && id >= |instances[i].metrics.series| ==>
      Count(instances[i].metrics.counters, id) == Added(actions, i, id)
  }

  ghost predicate Balanced(actions: seq<Action>, w: World, f: string, k: MetricKey) {
    CountOf(w.registry, f, k) + CountInFlight(w.inFlight, f, k) + PendingIn(w.instances, f, k)
    == AddedToSeries(actions, w.instances, |w.instances|, f, k)
  }

  ghost predicate Consistent(actions: seq<Action>, w: World) {
    && |w.instances| == Deployed(actions)
    && AllInterned(w.instances)
    && UnknownIdsKept(actions, w.instances)
  }

  lemma {:induction false} NothingAddedBeforeDeploy(actions: seq<Action>, i: nat, id: nat)
    requires i >= Deployed(actions)
    ensures Added(actions, i, id) == 0
  {
    if actions != [] {
      NothingAddedBeforeDeploy(actions[..|actions| - 1], i, id);
    }
  }

  /** The expected total only looks at whose instance it is and at its interning table. */
  lemma {:induction false} AddedToSameSeries(
      actions: seq<Action>, a: seq<Instance>, b: seq<Instance>, n: nat, f: string, k: MetricKey)
    requires n <= |a| && n <= |b|
    requires forall i :: 0 <= i < n ==> a[i].functionId == b[i].functionId && a[i].metrics.ids == b[i].metrics.ids
    ensures AddedToSeries(actions, a, n, f, k) == AddedToSeries(actions, b, n, f, k)
  {
    if n > 0 {
      AddedToSameSeries(actions, a, b, n - 1, f, k);
    }
  }

  /** An action that adds to no counter leaves the expected totals alone. */
  lemma {:induction false} AddedByOthers(
      actions: seq<Action>, a: Action, instances: seq<Instance>, n: nat, f: string, k: MetricKey)
    requires n <= |instances| && !a.AddToCounter?
    ensures AddedToSeries(actions + [a], instances, n, f, k) == AddedToSeries(actions, instances, n, f, k)
  {
    assert (actions + [a])[..|actions|] == actions;
    if n > 0 {
      AddedByOthers(actions, a, instances, n - 1, f, k);
    }
  }

  lemma {:induction false} AddedGrows(
      actions: seq<Action>, a: Action, instances: seq<Instance>, n: nat, f: string, k: MetricKey)
    requires n <= |instances| && a.AddToCounter? && a.instance < Deployed(actions)
    ensures AddedToSeries(actions + [a], instances, n, f, k) ==
            AddedToSeries(actions, instances, n, f, k) +
            if a.instance < n && instances[a.instance].functionId == f && k in instances[a.instance].metrics.ids
               && instances[a.instance].metrics.ids[k] == a.id then a.delta else 0
  {
    assert (actions + [a])[..|actions|] == actions;
    if n > 0 {
      AddedGrows(actions, a, instances, n - 1, f, k);
    }
  }

  /** Giving instance `i` one more series changes the expected total of that series only, by what was
      added under its id before the id was handed out. */
  lemma {:induction false} AddedByNewSeries(
      actions: seq<Action>, instances: seq<Instance>, i: nat, key: MetricKey, n: nat, f: string, k: MetricKey)
    requires i < |instances| && n <= |instances| && key !in instances[i].metrics.ids
    ensures var inst := instances[i];
            AddedToSeries(actions, instances[i := inst.(metrics := Register(inst.metrics, key))], n, f, k) ==
            AddedToSeries(actions, instances, n, f, k) +
            if i < n && inst.functionId == f && k == key then Added(actions, i, |inst.metrics.series|) else 0
  {
    if n > 0 {
      AddedByNewSeries(actions, instances, i, key, n - 1, f, k);
    }
  }

  lemma {:induction false} AddedIgnored(
      actions: seq<Action>, a: Action, instances: seq<Instance>, n: nat, f: string, k: MetricKey)
    requires n <= |instances| && a.AddToCounter? && a.instance >= Deployed(actions)
    ensures AddedToSeries(actions + [a], instances, n, f, k) == AddedToSeries(actions, instances, n, f, k)
  {
    assert (actions + [a])[..|actions|] == actions;
    if n > 0 {
      AddedIgnored(actions, a, instances, n - 1, f, k);
    }
  }

  // ---- One step at a time ----

  lemma InstanceUpdateKeepsConsistent(actions: seq<Action>, w: World, a: Action, i: nat, x: Instance)
    requires Consistent(actions, w) && i < |w.instances| && !a.Deploy? && Interned(x.metrics)
    requires |w.instances[i].metrics.series| <= |x.metrics.series|
    requires a.AddToCounter? ==> a.instance == i
    requires forall id :: id >= |x.metrics.series| ==>
               Count(x.metrics.counters, id) ==
               Count(w.instances[i].metrics.counters, id) + if a.AddToCounter? && a.id == id then a.delta else 0
    ensures Consistent(actions + [a], w.(instances := w.instances[i := x]))
  {
  }

  lemma DeployKeepsConsistent(actions: seq<Action>, w: World, a: Action)
    requires a.Deploy? && Consistent(actions, w)
    ensures Consistent(actions + [a], Step(w, a).value)
  {
    assert (actions + [a])[..|actions|] == actions;
    forall id
      ensures Added(actions + [a], |w.instances|, id) == 0
    {
      NothingAddedBeforeDeploy(actions, |w.instances|, id);
    }
  }

  lemma FlushKeepsConsistent(actions: seq<Action>, w: World, a: Action)
    requires a.Flush? && Step(w, a).Some? && Consistent(actions, w)
    ensures Consistent(actions + [a], Step(w, a).value)
  {
    assert (actions + [a])[..|actions|] == actions;
    FlushAllMoves(w.instances, a.worker, a.unlocked, "", MetricKey("", []));
  }

  /** A delivery, or a request that names no instance, touches no instance. */
  lemma SameInstancesKeepConsistent(actions: seq<Action>, w: World, a: Action)
    requires Step(w, a).Some? && Step(w, a).value.instances == w.instances && Consistent(actions, w)
    requires !a.Deploy? && (a.AddToCounter? ==> a.instance >= |w.instances|)
    ensures Consistent(actions + [a], Step(w, a).value)
  {
  }

  lemma StepKeepsConsistent(actions: seq<Action>, w: World, a: Action)
    requires Step(w, a).Some? && Consistent(actions, w)
    ensures Consistent(actions + [a], Step(w, a).value)
  {
    match a
    case Deploy(_, _) => DeployKeepsConsistent(actions, w, a);
    case Discard(i) =>
      if i < |w.instances| {
        InstanceUpdateKeepsConsistent(actions, w, a, i, w.instances[i].(alive := false));
      } else {
        SameInstancesKeepConsistent(actions, w, a);
      }
    case RegisterMetric(i, name, labels) =>
      if i < |w.instances| {
        var m := Register(w.instances[i].metrics, CanonicalKey(name, labels));
        InstanceUpdateKeepsConsistent(actions, w, a, i, w.instances[i].(metrics := m));
      } else {
        SameInstancesKeepConsistent(actions, w, a);
      }
    case AddToCounter(i, id, delta) =>
      if i < |w.instances| {
        var m := Increment(w.instances[i].metrics, id, delta);
        InstanceUpdateKeepsConsistent(actions, w, a, i, w.instances[i].(metrics := m));
      } else {
        SameInstancesKeepConsistent(actions, w, a);
      }
    case SetGauge(i, id, value) =>
      if i < |w.instances| {
        var m := UpdateGauge(w.instances[i].metrics, id, value);
        InstanceUpdateKeepsConsistent(actions, w, a, i, w.instances[i].(metrics := m));
      } else {
        SameInstancesKeepConsistent(actions, w, a);
      }
    case Flush(_, _) => FlushKeepsConsistent(actions, w, a);
    case Deliver => SameInstancesKeepConsistent(actions, w, a);
  }

  lemma PendingAppend(instances: seq<Instance>, x: Instance, f: string, k: MetricKey)
    ensures PendingIn(instances + [x], f, k) == PendingIn(instances, f, k) + Pending(x, f, k)
  {
    assert (instances + [x])[..|instances|] == instances;
  }

  lemma AddedToFresh(actions: seq<Action>, instances: seq<Instance>, x: Instance, f: string, k: MetricKey)
    requires x.metrics == NO_METRICS
    ensures AddedToSeries(actions, instances + [x], |instances| + 1, f, k) ==
            AddedToSeries(actions, instances, |instances|, f, k)
  {
    AddedToSameSeries(actions, instances + [x], instances, |instances|, f, k);
  }

  lemma DeployKeepsBalance(actions: seq<Action>, w: World, a: Action, f: string, k: MetricKey)
    requires a.Deploy? && Balanced(actions, w, f, k)
    ensures Balanced(actions + [a], Step(w, a).value, f, k)
  {
    var x := Instance(a.worker, a.functionId, true, NO_METRICS);
    PendingAppend(w.instances, x, f, k);
    AddedByOthers(actions, a, w.instances, |w.instances|, f, k);
    AddedToFresh(actions + [a], w.instances, x, f, k);
  }

  lemma RegisterKeepsBalance(actions: seq<Action>, w: World, a: Action, f: string, k: MetricKey)
    requires a.RegisterMetric? && UnknownIdsKept(actions, w.instances) && Balanced(actions, w, f, k)
    ensures Balanced(actions + [a], Step(w, a).value, f, k)
  {
    var w' := Step(w, a).value;
    var i, key := a.instance, CanonicalKey(a.name, a.labels);
    AddedByOthers(actions, a, w'.instances, |w.instances|, f, k);
    if i < |w.instances| {
      var inst := w.instances[i];
      if key in inst.metrics.ids {
        assert w'.instances == w.instances;
      } else {
        PendingUpdate(w.instances, i, w'.instances[i], f, k);
        AddedByNewSeries(actions, w.instances, i, key, |w.instances|, f, k);
        assert Count(inst.metrics.counters, |inst.metrics.series|) == Added(actions, i, |inst.metrics.series|);
      }
    }
  }

  lemma IncrementKeepsBalance(actions: seq<Action>, w: World, a: Action, f: string, k: MetricKey)
    requires a.AddToCounter? && |w.instances| == Deployed(actions) && Balanced(actions, w, f, k)
    ensures Balanced(actions + [a], Step(w, a).value, f, k)
  {
    if a.instance < |w.instances| {
      var inst := w.instances[a.instance];
      var after := inst.(metrics := Increment(inst.metrics, a.id, a.delta));
      PendingUpdate(w.instances, a.instance, after, f, k);
      assert Pending(after, f, k) == Pending(inst, f, k) +
        if inst.functionId == f && k in inst.metrics.ids && inst.metrics.ids[k] == a.id then a.delta else 0;
      AddedGrows(actions, a, w.instances, |w.instances|, f, k);
      AddedToSameSeries(actions + [a], w.instances, w.instances[a.instance := after], |w.instances|, f, k);
    } else {
      AddedIgnored(actions, a, w.instances, |w.instances|, f, k);
    }
  }

  lemma FlushKeepsBalance(actions: seq<Action>, w: World, a: Action, f: string, k: MetricKey)
    requires a.Flush? && Step(w, a).Some? && AllInterned(w.instances) && Balanced(actions, w, f, k)
    ensures Balanced(actions + [a], Step(w, a).value, f, k)
  {
    var w' := Step(w, a).value;
    FlushAllMoves(w.instances, a.worker, a.unlocked, f, k);
    InFlightAppend(w.inFlight, FlushAll(w.instances, a.worker, a.unlocked).value.1, f, k);
    AddedByOthers(actions, a, w'.instances, |w.instances|, f, k);
    AddedToSameSeries(actions, w.instances, w'.instances, |w.instances|, f, k);
  }

  lemma UpdateKeepsBalance(actions: seq<Action>, w: World, a: Action, i: nat, x: Instance, f: string, k: MetricKey)
    requires i < |w.instances| && !a.AddToCounter? && Balanced(actions, w, f, k)
    requires x.functionId == w.instances[i].functionId && x.metrics.ids == w.instances[i].metrics.ids
    requires Pending(x, f, k) == Pending(w.instances[i], f, k)
    ensures Balanced(actions + [a], w.(instances := w.instances[i := x]), f, k)
  {
    AddedByOthers(actions, a, w.instances[i := x], |w.instances|, f, k);
    PendingUpdate(w.instances, i, x, f, k);
    AddedToSameSeries(actions, w.instances, w.instances[i := x], |w.instances|, f, k);
  }

  /** A discard or a gauge moves no counter. */
  lemma QuietStepKeepsBalance(actions: seq<Action>, w: World, a: Action, f: string, k: MetricKey)
    requires (a.Discard? || a.SetGauge?) && Balanced(actions, w, f, k)
    ensures Balanced(actions + [a], Step(w, a).value, f, k)
  {
    if a.instance < |w.instances| {
      UpdateKeepsBalance(actions, w, a, a.instance, Step(w, a).value.instances[a.instance], f, k);
    } else {
      AddedByOthers(actions, a, w.instances, |w.instances|, f, k);
    }
  }

  lemma DeliverKeepsBalance(actions: seq<Action>, w: World, a: Action, f: string, k: MetricKey)
    requires a.Deliver? && Balanced(actions, w, f, k)
    ensures Balanced(actions + [a], Step(w, a).value, f, k)
  {
    AddedByOthers(actions, a, w.instances, |w.instances|, f, k);
    if w.inFlight != [] {
      MergeCounts(w.registry, w.inFlight[0], f, k);
    }
  }

  lemma StepKeepsBalance(actions: seq<Action>, w: World, a: Action, f: string, k: MetricKey)
    requires Step(w, a).Some? && Consistent(actions, w) && Balanced(actions, w, f, k)
    ensures Balanced(actions + [a], Step(w, a).value, f, k)
  {
    match a
    case Deploy(_, _) => DeployKeepsBalance(actions, w, a, f, k);
    case Discard(_) => QuietStepKeepsBalance(actions, w, a, f, k);
    case RegisterMetric(_, _, _) => RegisterKeepsBalance(actions, w, a, f, k);
    case AddToCounter(_, _, _) => IncrementKeepsBalance(actions, w, a, f, k);
    case SetGauge(_, _, _) => QuietStepKeepsBalance(actions, w, a, f, k);
    case Flush(_, _) => FlushKeepsBalance(actions, w, a, f, k);
    case Deliver => DeliverKeepsBalance(actions, w, a, f, k);
  }

  /** Main result: over every run that no panic ended, and for every function and series, registry,
      messages under way and pending deltas together are everything the guests ever added. */
  lemma {:induction false} CountersAreConserved(actions: seq<Action>, f: string, k: MetricKey)
    requires Run(actions).Some?
    ensures Consistent(actions, Run(actions).value)
    ensures Balanced(actions, Run(actions).value, f, k)
  {
    if actions != [] {
      var n := |actions| - 1;
      CountersAreConserved(actions[..n], f, k);
      StepKeepsConsistent(actions[..n], Run(actions[..n]).value, actions[n]);
      StepKeepsBalance(actions[..n], Run(actions[..n]).value, actions[n], f, k);
      assert actions[..n] + [actions[n]] == actions;
    }
  }

  // ---- What can be lost, and when a flush fails ----

  function PendingWhere(instances: seq<Instance>, alive: bool, f: string, k: MetricKey): nat {
    if instances == [] then 0
    else
      var last := instances[|instances| - 1];
      PendingWhere(instances[..|instances| - 1], alive, f, k) + if last.alive == alive then Pending(last, f, k) else 0
  }

  lemma {:induction false} PendingSplits(instances: seq<Instance>, f: string, k: MetricKey)
    ensures PendingIn(instances, f, k) == PendingWhere(instances, true, f, k) + PendingWhere(instances, false, f, k)
  {
    if instances != [] {
      PendingSplits(instances[..|instances| - 1], f, k);
    }
  }

  /** Once everything live is flushed and delivered, the registry shows every increment of a series
      exactly when no discarded instance was left holding some; otherwise it is short by just those. */
  lemma OnlyDiscardedIncrementsAreLost(actions: seq<Action>, f: string, k: MetricKey)
    requires Run(actions).Some?
    requires Run(actions).value.inFlight == [] && PendingWhere(Run(actions).value.instances, true, f, k) == 0
    ensures var w := Run(actions).value;
            && CountOf(w.registry, f, k) + PendingWhere(w.instances, false, f, k)
               == AddedToSeries(actions, w.instances, |w.instances|, f, k)
            && (CountOf(w.registry, f, k) == AddedToSeries(actions, w.instances, |w.instances|, f, k)
                <==> PendingWhere(w.instances, false, f, k) == 0)
  {
    CountersAreConserved(actions, f, k);
    PendingSplits(Run(actions).value.instances, f, k);
  }

  lemma OneInstanceStarts(actions: seq<Action>, f: string)
    requires actions != [] && actions[0] == Deploy(0, f)
    ensures Run(actions[..1]) == Some(World([Instance(0, f, true, NO_METRICS)], [], map[]))
  {
    assert actions[..0] == [];
    RunStep(actions, 0, START);
    assert [] + [Instance(0, f, true, NO_METRICS)] == [Instance(0, f, true, NO_METRICS)];
  }

  lemma OneInstanceUpdates(instances: seq<Instance>, x: Instance)
    requires |instances| == 1
    ensures instances[0 := x] == [x]
  {
  }

  function LossyRun(f: string, name: string, labels: seq<Label>, delta: nat): seq<Action> {
    [Deploy(0, f), RegisterMetric(0, name, labels), AddToCounter(0, 0, delta), Discard(0), Flush(0, [0]), Deliver]
  }

  lemma LossyCounts(f: string, name: string, labels: seq<Label>, delta: nat)
    ensures var key := CanonicalKey(name, labels);
            var counted := Metrics([key], map[key := 0], map[0 := delta], map[]);
            Run(LossyRun(f, name, labels, delta)[..3]) == Some(World([Instance(0, f, true, counted)], [], map[]))
  {
    var actions, key := LossyRun(f, name, labels, delta), CanonicalKey(name, labels);
    var m := Metrics([key], map[key := 0], map[], map[]);
    OneInstanceStarts(actions, f);
    assert Register(NO_METRICS, key) == m;
    OneInstanceUpdates([Instance(0, f, true, NO_METRICS)], Instance(0, f, true, m));
    RunStep(actions, 1, World([Instance(0, f, true, NO_METRICS)], [], map[]));
    OneInstanceUpdates([Instance(0, f, true, m)], Instance(0, f, true, Increment(m, 0, delta)));
    RunStep(actions, 2, World([Instance(0, f, true, m)], [], map[]));
  }

  /** Nobody flushes a discarded instance: the message is empty, and so is the registry after it. */
  lemma DiscardedStays(inst: Instance)
    requires !inst.alive
    ensures Step(World([inst], [], map[]), Flush(0, [0])) == Some(World([inst], [map[]], map[]))
    ensures Step(World([inst], [map[]], map[]), Deliver) == Some(World([inst], [], map[]))
  {
    assert [0][..0] == [];
    assert FlushAll([inst], 0, [0]) == Some(([inst], map[]));
    var none: seq<Message>, one: seq<Message> := [], [map[]];
    assert none + one == one && one[1..] == none;
    assert Merge(map[], map[]) == map[];
  }

  lemma LossyEnd(f: string, name: string, labels: seq<Label>, delta: nat, counted: Metrics)
    requires Run(LossyRun(f, name, labels, delta)[..3]) == Some(World([Instance(0, f, true, counted)], [], map[]))
    ensures Run(LossyRun(f, name, labels, delta)) == Some(World([Instance(0, f, false, counted)], [], map[]))
  {
    var actions, left := LossyRun(f, name, labels, delta), [Instance(0, f, false, counted)];
    assert actions[..6] == actions;
    OneInstanceUpdates([Instance(0, f, true, counted)], Instance(0, f, false, counted));
    RunStep(actions, 3, World([Instance(0, f, true, counted)], [], map[]));
    RunStep(actions, 4, World(left, [], map[]));
    DiscardedStays(left[0]);
    RunStep(actions, 5, World(left, [map[]], map[]));
  }

  /** Such a run: an instance counts, is discarded before a flush, and its increments never arrive. */
  lemma DiscardedIncrementsCanBeLost(f: string, name: string, labels: seq<Label>, delta: nat)
    ensures var actions, key := LossyRun(f, name, labels, delta), CanonicalKey(name, labels);
            && Run(actions).Some?
            && var w := Run(actions).value;
            && w.inFlight == []
            && CountOf(w.registry, f, key) == 0
            && AddedToSeries(actions, w.instances, |w.instances|, f, key) == delta
  {
    var actions, key := LossyRun(f, name, labels, delta), CanonicalKey(name, labels);
    var counted := Metrics([key], map[key := 0], map[0 := delta], map[]);
    LossyCounts(f, name, labels, delta);
    LossyEnd(f, name, labels, delta, counted);
    CountersAreConserved(actions, f, key);
    var left := [Instance(0, f, false, counted)];
    assert left[..0] == [] && PendingIn(left, f, key) == delta;
  }

  ghost predicate Trips(instances: seq<Instance>, worker: nat, i: nat) {
    i < |instances| && instances[i].alive && instances[i].worker == worker && !AllRegistered(instances[i].metrics)
  }

  lemma {:induction false} FlushAllShape(instances: seq<Instance>, worker: nat, unlocked: seq<nat>)
    requires FlushAll(instances, worker, unlocked).Some?
    ensures var after := FlushAll(instances, worker, unlocked).value.0;
            && |after| == |instances|
            && forall i :: 0 <= i < |after| ==>
                 after[i] == instances[i] || after[i] == instances[i].(metrics := Flushed(instances[i].metrics))
    ensures forall i :: 0 <= i < |instances| && i !in unlocked ==>
              FlushAll(instances, worker, unlocked).value.0[i] == instances[i]
  {
    if unlocked != [] {
      FlushAllShape(instances, worker, unlocked[..|unlocked| - 1]);
    }
  }

  /** A worker's flush panics exactly when one of the instances it visits holds a value under an id that
      was never handed out. */
  lemma {:induction false} FlushPanicsExactlyWhen(instances: seq<Instance>, worker: nat, unlocked: seq<nat>)
    ensures FlushAll(instances, worker, unlocked).None? <==> exists i :: i in unlocked && Trips(instances, worker, i)
  {
    if unlocked != [] {
      var n := |unlocked| - 1;
      var last := unlocked[n];
      assert unlocked == unlocked[..n] + [last];
      FlushPanicsExactlyWhen(instances, worker, unlocked[..n]);
      if FlushAll(instances, worker, unlocked[..n]).Some? {
        FlushAllShape(instances, worker, unlocked[..n]);
        var after := FlushAll(instances, worker, unlocked[..n]).value.0;
        if last in unlocked[..n] {
          assert !Trips(instances, worker, last);
        }
        assert Trips(after, worker, last) <==> Trips(instances, worker, last);
        if Trips(instances, worker, last) {
          assert last in unlocked;
        }
      } else {
        var i :| i in unlocked[..n] && Trips(instances, worker, i);
        assert i in unlocked;
      }
    }
  }

  /** Such a run: a guest counts under an id it was never given, and the next flush takes the worker down. */
  lemma UnknownIdPanics(f: string, id: nat, delta: nat)
    ensures Run([Deploy(0, f), AddToCounter(0, id, delta), Flush(0, [0])]) == None
  {
    var actions := [Deploy(0, f), AddToCounter(0, id, delta), Flush(0, [0])];
    var w := World([Instance(0, f, true, Increment(NO_METRICS, id, delta))], [], map[]);
    assert actions[..3] == actions;
    OneInstanceStarts(actions, f);
    OneInstanceUpdates([Instance(0, f, true, NO_METRICS)], w.instances[0]);
    RunStep(actions, 1, World([Instance(0, f, true, NO_METRICS)], [], map[]));
    RunStep(actions, 2, w);
    assert Trips(w.instances, 0, 0) && 0 in [0];
    FlushPanicsExactlyWhen(w.instances, 0, [0]);
  }

  function TouchedId(a: Action): Option<nat> {
    match a
    case AddToCounter(_, id, _) => Some(id)
    case SetGauge(_, id, _) => Some(id)
    case _ => None
  }

  /** Guests that only use ids they were given. */
  ghost predicate UsesKnownIds(actions: seq<Action>) {
    forall n :: 0 <= n < |actions| && TouchedId(actions[n]).Some? && Run(actions[..n]).Some? ==>
      var w := Run(actions[..n]).value;
      actions[n].instance < |w.instances| ==>
        TouchedId(actions[n]).value < |w.instances[actions[n].instance].metrics.series|
  }

  ghost predicate AllKnown(instances: seq<Instance>) {
    forall i :: 0 <= i < |instances| ==> AllRegistered(instances[i].metrics)
  }

  lemma StepKeepsKnown(w: World, a: Action)
    requires AllKnown(w.instances)
    requires TouchedId(a).Some? && a.instance < |w.instances| ==>
               TouchedId(a).value < |w.instances[a.instance].metrics.series|
    ensures Step(w, a).Some? && AllKnown(Step(w, a).value.instances)
  {
    if a.Flush? {
      FlushPanicsExactlyWhen(w.instances, a.worker, a.unlocked);
      FlushAllShape(w.instances, a.worker, a.unlocked);
    }
  }

  /** Then no run ever ends in a panic. */
  lemma {:induction false} KnownIdsNeverPanic(actions: seq<Action>, n: nat)
    requires UsesKnownIds(actions) && n <= |actions|
    ensures Run(actions[..n]).Some? && AllKnown(Run(actions[..n]).value.instances)
    decreases n
  {
    if n > 0 {
      KnownIdsNeverPanic(actions, n - 1);
      RunStep(actions, n - 1, Run(actions[..n - 1]).value);
      StepKeepsKnown(Run(actions[..n - 1]).value, actions[n - 1]);
    }
  }
}
