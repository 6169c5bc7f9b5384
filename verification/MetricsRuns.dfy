/**
 What becomes of increments and when a run ends in a panic, read off the actions alone.

 The actions that concern one instance are its own log of calls; a flush is among them when
 the worker visits the instance while it is alive.
 */
module MetricsRuns {
  import opened Common
  import opened MetricsKeys
  import opened MetricsState
  import opened MetricsPipeline

  datatype Life = Life(worker: nat, functionId: string, alive: bool)

  /** Where instance `i` was deployed and whether it was discarded since; None before its deploy. */
  function LifeOf(actions: seq<Action>, i: nat): Option<Life> {
    if actions == [] then None
    else
      var n := |actions| - 1;
      var before := LifeOf(actions[..n], i);
      match actions[n]
      case Deploy(worker, f) => if Deployed(actions[..n]) == i then Some(Life(worker, f, true)) else before
      case Discard(j) => if i == j && before.Some? then Some(before.value.(alive := false)) else before
      case _ => before
  }

  /** What action `a` is to instance `i`, as far as its metrics are concerned. */
  function CallTo(life: Life, i: nat, a: Action): seq<Call> {
    match a
    case RegisterMetric(j, name, labels) => if i == j then [RegisterCall(name, labels)] else []
    case AddToCounter(j, id, delta) => if i == j then [IncrementCall(id, delta)] else []
    case SetGauge(j, id, value) => if i == j then [GaugeCall(id, value)] else []
    case Flush(worker, unlocked) => if i in unlocked && life.alive && life.worker == worker then [FlushCall] else []
    case _ => []
  }

  /** The calls of instance `i`, in order. */
  function CallsOf(actions: seq<Action>, i: nat): seq<Call> {
    if actions == [] then []
    else
      var n := |actions| - 1;
      var life := LifeOf(actions[..n], i);
      CallsOf(actions[..n], i) + if life.Some? then CallTo(life.value, i, actions[n]) else []
  }

  // ---- The instances follow the log ----

  lemma {:induction false} FlushAllVisits(instances: seq<Instance>, worker: nat, unlocked: seq<nat>, i: nat)
    requires FlushAll(instances, worker, unlocked).Some? && i < |instances|
    ensures |FlushAll(instances, worker, unlocked).value.0| == |instances|
    ensures FlushAll(instances, worker, unlocked).value.0[i] ==
            if i in unlocked && instances[i].alive && instances[i].worker == worker
            then instances[i].(metrics := Flushed(instances[i].metrics)) else instances[i]
  {
    if unlocked != [] {
      var n := |unlocked| - 1;
      assert unlocked == unlocked[..n] + [unlocked[n]];
      FlushAllVisits(instances, worker, unlocked[..n], i);
      FlushAllShape(instances, worker, unlocked[..n]);
    }
  }

  function LifeIn(inst: Instance): Life {
    Life(inst.worker, inst.functionId, inst.alive)
  }

  function CallOn(m: Metrics, calls: seq<Call>): Metrics {
    if calls == [] then m else Apply(CallOn(m, calls[..|calls| - 1]), calls[|calls| - 1])
  }

  lemma OneCallOn(m: Metrics, c: Call)
    ensures CallOn(m, [c]) == Apply(m, c)
  {
    assert [c][..0] == [];
  }

  /** What an action does to an instance that is there already. */
  lemma InstanceStep(w: World, a: Action, i: nat)
    requires Step(w, a).Some? && i < |w.instances|
    ensures var w' := Step(w, a).value;
            && |w'.instances| == |w.instances| + (if a.Deploy? then 1 else 0)
            && w'.instances[i].metrics == CallOn(w.instances[i].metrics, CallTo(LifeIn(w.instances[i]), i, a))
            && LifeIn(w'.instances[i]) ==
               LifeIn(w.instances[i]).(alive := w.instances[i].alive && a != Discard(i))
  {
    var inst := w.instances[i];
    if CallTo(LifeIn(inst), i, a) != [] {
      OneCallOn(inst.metrics, CallTo(LifeIn(inst), i, a)[0]);
    }
    if a.Flush? {
      FlushAllVisits(w.instances, a.worker, a.unlocked, i);
    }
  }

  lemma OtherInstances(w: World, a: Action)
    requires Step(w, a).Some?
    ensures |Step(w, a).value.instances| == |w.instances| + (if a.Deploy? then 1 else 0)
    ensures a.Deploy? ==>
              Step(w, a).value.instances[|w.instances|] == Instance(a.worker, a.functionId, true, NO_METRICS)
  {
    if a.Flush? {
      FlushAllShape(w.instances, a.worker, a.unlocked);
    }
  }

  lemma {:induction false} ApplyAllOn(calls: seq<Call>, more: seq<Call>)
    ensures ApplyAll(calls + more) == CallOn(ApplyAll(calls), more)
  {
    if more == [] {
      assert calls + more == calls;
    } else {
      var n := |more| - 1;
      ApplyAllOn(calls, more[..n]);
      assert (calls + more)[..|calls + more| - 1] == calls + more[..n];
    }
  }

  ghost predicate FollowsLog(actions: seq<Action>, inst: Instance, i: nat) {
    LifeOf(actions, i) == Some(LifeIn(inst)) && inst.metrics == ApplyAll(CallsOf(actions, i))
  }

  /** Main result: over every run each instance is where its deploy put it, and its metrics are those of its
      own calls. */
  lemma {:induction false} InstancesFollowLog(actions: seq<Action>, i: nat)
    requires Run(actions).Some?
    ensures |Run(actions).value.instances| == Deployed(actions)
    ensures i < Deployed(actions) ==> FollowsLog(actions, Run(actions).value.instances[i], i)
    ensures i >= Deployed(actions) ==> LifeOf(actions, i).None? && CallsOf(actions, i) == []
  {
    if actions != [] {
      var n := |actions| - 1;
      var w := Run(actions[..n]).value;
      InstancesFollowLog(actions[..n], i);
      OtherInstances(w, actions[n]);
      if i < Deployed(actions[..n]) {
        InstanceStep(w, actions[n], i);
        ApplyAllOn(CallsOf(actions[..n], i), CallTo(LifeIn(w.instances[i]), i, actions[n]));
      }
    }
  }

  // ---- Which runs end in a panic ----

  /** At `n` a worker flushes a live instance of its own that put a value, not flushed since, under an id no
      registration of that instance was answered with. */
  ghost predicate PanicsAt(actions: seq<Action>, n: nat, i: nat) {
    && n < |actions| && actions[n].Flush? && i in actions[n].unlocked
    && LifeOf(actions[..n], i).Some?
    && LifeOf(actions[..n], i).value.alive && LifeOf(actions[..n], i).value.worker == actions[n].worker
    && exists id: nat :: Unflushed(CallsOf(actions[..n], i), id) && !HandedOut(CallsOf(actions[..n], i), id)
  }

  lemma TripsIsPanic(actions: seq<Action>, n: nat, i: nat)
    requires n < |actions| && actions[n].Flush? && i in actions[n].unlocked && Run(actions[..n]).Some?
    ensures Trips(Run(actions[..n]).value.instances, actions[n].worker, i) <==> PanicsAt(actions, n, i)
  {
    InstancesFollowLog(actions[..n], i);
    FlushFailsExactlyOnUnknownIds(CallsOf(actions[..n], i));
  }

  ghost predicate SomePanicAt(actions: seq<Action>, n: nat) {
    exists i: nat :: PanicsAt(actions, n, i)
  }

  lemma StepPanics(actions: seq<Action>, n: nat)
    requires n < |actions| && Run(actions[..n]).Some?
    ensures Step(Run(actions[..n]).value, actions[n]).None? <==> SomePanicAt(actions, n)
  {
    var w := Run(actions[..n]).value;
    if actions[n].Flush? {
      FlushPanicsExactlyWhen(w.instances, actions[n].worker, actions[n].unlocked);
      if Step(w, actions[n]).None? {
        var i :| i in actions[n].unlocked && Trips(w.instances, actions[n].worker, i);
        TripsIsPanic(actions, n, i);
      }
      if i: nat :| PanicsAt(actions, n, i) {
        TripsIsPanic(actions, n, i);
      }
    }
  }

  lemma PanicsPrefix(actions: seq<Action>, m: nat, i: nat)
    requires m < |actions| - 1
    ensures PanicsAt(actions[..|actions| - 1], m, i) <==> PanicsAt(actions, m, i)
  {
    assert actions[..|actions| - 1][..m] == actions[..m];
  }

  ghost predicate SomePanic(actions: seq<Action>) {
    exists n: nat, i: nat :: PanicsAt(actions, n, i)
  }

  lemma SomePanicStep(actions: seq<Action>)
    requires actions != []
    ensures SomePanic(actions) <==>
            SomePanic(actions[..|actions| - 1]) || SomePanicAt(actions, |actions| - 1)
  {
    var before := actions[..|actions| - 1];
    if m: nat, i: nat :| PanicsAt(before, m, i) {
      PanicsPrefix(actions, m, i);
    }
    if m: nat, i: nat :| PanicsAt(actions, m, i) && m < |actions| - 1 {
      PanicsPrefix(actions, m, i);
    }
  }

  /** Main result: a run ends in a panic exactly when some flush in it visits such an instance. */
  lemma {:induction false} RunPanicsExactlyWhen(actions: seq<Action>)
    ensures Run(actions).None? <==> SomePanic(actions)
  {
    if actions != [] {
      var n := |actions| - 1;
      RunPanicsExactlyWhen(actions[..n]);
      SomePanicStep(actions);
      if Run(actions[..n]).Some? {
        StepPanics(actions, n);
      }
    }
  }

  // ---- Which increments are lost ----

  /** Some registration of the series was answered with the id. */
  ghost predicate Names(calls: seq<Call>, k: MetricKey, id: nat) {
    exists j: nat :: j < |calls| && calls[j].RegisterCall? && CanonicalKey(calls[j].name, calls[j].labels) == k
                     && AnsweredId(calls, j) == id
  }

  lemma NamesStep(calls: seq<Call>, k: MetricKey, id: nat)
    requires calls != []
    ensures var n := |calls| - 1;
            Names(calls, k, id) <==>
            Names(calls[..n], k, id) ||
            (calls[n].RegisterCall? && CanonicalKey(calls[n].name, calls[n].labels) == k && AnsweredId(calls, n) == id)
  {
    var n := |calls| - 1;
    var before := calls[..n];
    forall j: nat | j < n
      ensures before[..j] == calls[..j] && before[j] == calls[j]
    {
    }
    if j: nat :| j < |before| && before[j].RegisterCall? && CanonicalKey(before[j].name, before[j].labels) == k
                 && AnsweredId(before, j) == id {
      assert AnsweredId(calls, j) == id;
    }
    if j: nat :| j < n && calls[j].RegisterCall? && CanonicalKey(calls[j].name, calls[j].labels) == k
                 && AnsweredId(calls, j) == id {
      assert AnsweredId(before, j) == id;
    }
  }

  lemma {:induction false} NamesExactly(calls: seq<Call>, k: MetricKey, id: nat)
    ensures k in ApplyAll(calls).ids && ApplyAll(calls).ids[k] == id <==> Names(calls, k, id)
  {
    if calls != [] {
      NamesExactly(calls[..|calls| - 1], k, id);
      NamesStep(calls, k, id);
    }
  }

  /** Something was added under the id and has not been flushed since. */
  ghost predicate UnflushedAdd(calls: seq<Call>, id: nat) {
    exists i: nat :: i < |calls| && calls[i].IncrementCall? && calls[i].id == id && calls[i].delta > 0
                     && forall r :: i < r < |calls| ==> !calls[r].FlushCall?
  }

  lemma UnflushedAddStep(calls: seq<Call>, id: nat)
    requires calls != []
    ensures var n := |calls| - 1;
            UnflushedAdd(calls, id) <==>
            (calls[n].IncrementCall? && calls[n].id == id && calls[n].delta > 0) ||
            (!calls[n].FlushCall? && UnflushedAdd(calls[..n], id))
  {
    var n := |calls| - 1;
    var before := calls[..n];
    if i: nat :| i < |before| && before[i].IncrementCall? && before[i].id == id && before[i].delta > 0
                 && forall r :: i < r < |before| ==> !before[r].FlushCall? {
      assert calls[i] == before[i];
      assert forall r :: i < r < n ==> calls[r] == before[r];
    }
    if i: nat :| i < |calls| && calls[i].IncrementCall? && calls[i].id == id && calls[i].delta > 0
                 && forall r :: i < r < |calls| ==> !calls[r].FlushCall? {
      assert i < n ==> before[i] == calls[i];
      assert forall r :: i < r < n ==> calls[r] == before[r];
    }
  }

  lemma {:induction false} PositiveExactly(calls: seq<Call>, id: nat)
    ensures Count(ApplyAll(calls).counters, id) > 0 <==> UnflushedAdd(calls, id)
  {
    if calls != [] {
      PositiveExactly(calls[..|calls| - 1], id);
      UnflushedAddStep(calls, id);
    }
  }

  /** The instance still holds something for the series. */
  ghost predicate Holds(actions: seq<Action>, i: nat, k: MetricKey) {
    exists id: nat :: Names(CallsOf(actions, i), k, id) && UnflushedAdd(CallsOf(actions, i), id)
  }

  /** An instance of `f`, alive or not, still holds something for the series. */
  ghost predicate HeldBy(actions: seq<Action>, i: nat, alive: bool, f: string, k: MetricKey) {
    && LifeOf(actions, i).Some?
    && LifeOf(actions, i).value.functionId == f && LifeOf(actions, i).value.alive == alive
    && Holds(actions, i, k)
  }

  lemma HeldExactly(actions: seq<Action>, i: nat, f: string, k: MetricKey)
    requires Run(actions).Some? && i < |Run(actions).value.instances|
    ensures var inst := Run(actions).value.instances[i];
            Pending(inst, f, k) > 0 <==> inst.functionId == f && Holds(actions, i, k)
  {
    InstancesFollowLog(actions, i);
    var calls, inst := CallsOf(actions, i), Run(actions).value.instances[i];
    if k in inst.metrics.ids {
      NamesExactly(calls, k, inst.metrics.ids[k]);
      PositiveExactly(calls, inst.metrics.ids[k]);
    }
    if id: nat :| Names(calls, k, id) && UnflushedAdd(calls, id) {
      NamesExactly(calls, k, id);
      PositiveExactly(calls, id);
    }
  }

  lemma {:induction false} NothingPending(instances: seq<Instance>, alive: bool, f: string, k: MetricKey)
    ensures PendingWhere(instances, alive, f, k) == 0
            <==> forall i :: 0 <= i < |instances| && instances[i].alive == alive ==> Pending(instances[i], f, k) == 0
  {
    if instances != [] {
      var n := |instances| - 1;
      NothingPending(instances[..n], alive, f, k);
      assert forall i :: 0 <= i < n ==> instances[..n][i] == instances[i];
    }
  }

  lemma NobodyHolds(actions: seq<Action>, alive: bool, f: string, k: MetricKey)
    requires Run(actions).Some?
    ensures PendingWhere(Run(actions).value.instances, alive, f, k) == 0
            <==> forall i: nat :: !HeldBy(actions, i, alive, f, k)
  {
    var instances := Run(actions).value.instances;
    NothingPending(instances, alive, f, k);
    forall i: nat
      ensures HeldBy(actions, i, alive, f, k) <==>
              i < |instances| && instances[i].alive == alive && Pending(instances[i], f, k) > 0
    {
      InstancesFollowLog(actions, i);
      if i < |instances| {
        HeldExactly(actions, i, f, k);
      }
    }
  }

  /** How many flush messages have not been delivered. */
  function Outstanding(actions: seq<Action>): nat {
    if actions == [] then 0
    else
      var before := Outstanding(actions[..|actions| - 1]);
      match actions[|actions| - 1]
      case Flush(_, _) => before + 1
      case Deliver => if before > 0 then before - 1 else 0
      case _ => before
  }

  lemma {:induction false} OutstandingInFlight(actions: seq<Action>)
    requires Run(actions).Some?
    ensures |Run(actions).value.inFlight| == Outstanding(actions)
  {
    if actions != [] {
      OutstandingInFlight(actions[..|actions| - 1]);
    }
  }

  /** Main result: when every message is delivered and every live instance has been flushed since it last
      counted, the registry shows everything ever added to a series exactly when no instance of the function
      was discarded with an increment of that series not flushed. */
  lemma CompleteExactlyWhen(actions: seq<Action>, f: string, k: MetricKey)
    requires Run(actions).Some? && Outstanding(actions) == 0
    requires forall i: nat :: !HeldBy(actions, i, true, f, k)
    ensures var w := Run(actions).value;
            CountOf(w.registry, f, k) == AddedToSeries(actions, w.instances, |w.instances|, f, k)
            <==> forall i: nat :: !HeldBy(actions, i, false, f, k)
  {
    OutstandingInFlight(actions);
    NobodyHolds(actions, true, f, k);
    NobodyHolds(actions, false, f, k);
    OnlyDiscardedIncrementsAreLost(actions, f, k);
  }
}
