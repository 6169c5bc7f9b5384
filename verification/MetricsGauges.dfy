/**
 Gauges from the instances to the registry: the latest value wins, at every place where
 values meet.
 */
module MetricsGauges {
  import opened Common
  import opened MetricsKeys
  import opened MetricsState
  import opened MetricsPipeline
  import opened MetricsRuns

  function GaugeOf(m: Message, f: string, k: MetricKey): Option<int> {
    if k in DeltaFor(m, f).gauges then Some(DeltaFor(m, f).gauges[k]) else None
  }

  /** The value of the first argument that has one, the later value coming first. */
  function Latest(later: Option<int>, earlier: Option<int>): Option<int> {
    if later.Some? then later else earlier
  }

  /** The value in the last message that carries the gauge. */
  function LastCarried(messages: seq<Message>, f: string, k: MetricKey): Option<int> {
    if messages == [] then None
    else Latest(GaugeOf(messages[|messages| - 1], f, k), LastCarried(messages[..|messages| - 1], f, k))
  }

  /** The messages handed to the registry, in order. */
  function Delivered(actions: seq<Action>): seq<Message> {
    if actions == [] then []
    else
      var before := Run(actions[..|actions| - 1]);
      Delivered(actions[..|actions| - 1]) +
      if actions[|actions| - 1].Deliver? && before.Some? && before.value.inFlight != [] then [before.value.inFlight[0]]
      else []
  }

  /** The messages the flushes sent, in order. */
  function Sent(actions: seq<Action>): seq<Message> {
    if actions == [] then []
    else
      var before, last := Run(actions[..|actions| - 1]), actions[|actions| - 1];
      var flushed :=
        if before.Some? && last.Flush? then FlushAll(before.value.instances, last.worker, last.unlocked) else None;
      Sent(actions[..|actions| - 1]) + if flushed.Some? then [flushed.value.1] else []
  }

  /** What an action does to the messages: flushes send one, deliveries take the oldest. */
  lemma StepMessages(w: World, a: Action)
    requires Step(w, a).Some?
    ensures var w' := Step(w, a).value;
            if a.Flush? then
              && FlushAll(w.instances, a.worker, a.unlocked).Some? && w'.registry == w.registry
              && w'.inFlight == w.inFlight + [FlushAll(w.instances, a.worker, a.unlocked).value.1]
            else if a.Deliver? && w.inFlight != [] then
              w'.registry == Merge(w.registry, w.inFlight[0]) && w'.inFlight == w.inFlight[1..]
            else
              w'.registry == w.registry && w'.inFlight == w.inFlight
  {
  }

  /** No message is lost, doubled or overtaken on its way. */
  lemma {:induction false} DeliveredInOrder(actions: seq<Action>)
    requires Run(actions).Some?
    ensures Sent(actions) == Delivered(actions) + Run(actions).value.inFlight
  {
    if actions != [] {
      var n := |actions| - 1;
      DeliveredInOrder(actions[..n]);
      StepMessages(Run(actions[..n]).value, actions[n]);
    }
  }

  lemma LastCarriedAppend(messages: seq<Message>, m: Message, f: string, k: MetricKey)
    ensures LastCarried(messages + [m], f, k) == Latest(GaugeOf(m, f, k), LastCarried(messages, f, k))
  {
  }

  lemma MergeGauges(registry: Message, m: Message, f: string, k: MetricKey)
    ensures GaugeOf(Merge(registry, m), f, k) == Latest(GaugeOf(m, f, k), GaugeOf(registry, f, k))
  {
  }

  /** Main result: over every run the registry shows for a gauge the value in the last delivered message that
      carries it, and nothing when none did. */
  lemma {:induction false} RegistryShowsLastCarried(actions: seq<Action>, f: string, k: MetricKey)
    requires Run(actions).Some?
    ensures GaugeOf(Run(actions).value.registry, f, k) == LastCarried(Delivered(actions), f, k)
  {
    if actions != [] {
      var n := |actions| - 1;
      RegistryShowsLastCarried(actions[..n], f, k);
      var w := Run(actions[..n]).value;
      StepMessages(w, actions[n]);
      if actions[n].Deliver? && w.inFlight != [] {
        MergeGauges(w.registry, w.inFlight[0], f, k);
        LastCarriedAppend(Delivered(actions[..n]), w.inFlight[0], f, k);
        assert Delivered(actions) == Delivered(actions[..n]) + [w.inFlight[0]];
      } else {
        assert Delivered(actions) == Delivered(actions[..n]);
      }
    }
  }

  /** What one instance would send for a gauge of function `f`. */
  function PendingGauge(instances: seq<Instance>, worker: nat, i: nat, f: string, k: MetricKey): Option<int> {
    if i < |instances| && instances[i].alive && instances[i].worker == worker && instances[i].functionId == f then
      var m := instances[i].metrics;
      if k in m.ids && m.ids[k] in m.gauges then Some(m.gauges[m.ids[k]]) else None
    else
      None
  }

  /** The last value offered, each place counting at its first visit. */
  function LastOf(offer: nat -> Option<int>, visits: seq<nat>): Option<int> {
    if visits == [] then None
    else
      var n := |visits| - 1;
      var before := LastOf(offer, visits[..n]);
      if visits[n] in visits[..n] then before else Latest(offer(visits[n]), before)
  }

  /** Visit `n` is the first to its place, is offered `v`, and no first visit after it is offered anything. */
  predicate LastAt(offer: nat -> Option<int>, visits: seq<nat>, n: nat, v: int) {
    && n < |visits| && visits[n] !in visits[..n] && offer(visits[n]) == Some(v)
    && forall m :: n < m < |visits| && visits[m] !in visits[..m] ==> offer(visits[m]) == None
  }

  lemma LastAtStep(offer: nat -> Option<int>, visits: seq<nat>, n: nat, v: int)
    requires n < |visits| - 1
    ensures var m := |visits| - 1;
            LastAt(offer, visits, n, v) <==>
            LastAt(offer, visits[..m], n, v) && (visits[m] in visits[..m] || offer(visits[m]) == None)
  {
    var m := |visits| - 1;
    assert forall k :: 0 <= k < m ==> visits[..m][k] == visits[k] && visits[..m][..k] == visits[..k];
  }

  lemma {:induction false} LastOfExactly(offer: nat -> Option<int>, visits: seq<nat>, v: int)
    ensures LastOf(offer, visits) == Some(v) <==> exists n: nat :: LastAt(offer, visits, n, v)
  {
    if visits != [] {
      var m := |visits| - 1;
      LastOfExactly(offer, visits[..m], v);
      if n: nat :| LastAt(offer, visits, n, v) {
        if n < m {
          LastAtStep(offer, visits, n, v);
        }
      }
      if n: nat :| LastAt(offer, visits[..m], n, v) {
        LastAtStep(offer, visits, n, v);
      }
      if visits[m] !in visits[..m] && offer(visits[m]) == Some(v) {
        assert LastAt(offer, visits, m, v);
      }
    }
  }

  /** What a visit to each instance finds for the gauge. */
  function Offer(instances: seq<Instance>, worker: nat, f: string, k: MetricKey): nat -> Option<int> {
    (i: nat) => PendingGauge(instances, worker, i, f, k)
  }

  /** The value of the instance visited last among those that hold one. */
  function LastVisited(
      instances: seq<Instance>, worker: nat, unlocked: seq<nat>, f: string, k: MetricKey): Option<int> {
    LastOf(Offer(instances, worker, f, k), unlocked)
  }

  lemma AppendForGauge(m: Message, g: string, d: Delta, f: string, k: MetricKey)
    ensures GaugeOf(AppendFor(m, g, d), f, k) ==
            Latest(if f == g && k in d.gauges then Some(d.gauges[k]) else None, GaugeOf(m, f, k))
  {
  }

  lemma FlushOneGauge(instances: seq<Instance>, worker: nat, i: nat, m: Message, f: string, k: MetricKey)
    requires FlushOne(instances, worker, i, m).Some?
    ensures GaugeOf(FlushOne(instances, worker, i, m).value.1, f, k) ==
            Latest(PendingGauge(instances, worker, i, f, k), GaugeOf(m, f, k))
  {
    if i < |instances| && instances[i].alive && instances[i].worker == worker {
      AppendForGauge(m, instances[i].functionId, DeltaOf(instances[i].metrics).value, f, k);
    }
  }

  lemma {:induction false} VisitedIsEmpty(
      instances: seq<Instance>, worker: nat, unlocked: seq<nat>, i: nat, f: string, k: MetricKey)
    requires FlushAll(instances, worker, unlocked).Some? && i in unlocked
    ensures PendingGauge(FlushAll(instances, worker, unlocked).value.0, worker, i, f, k) == None
  {
    var n := |unlocked| - 1;
    var (mid, m) := FlushAll(instances, worker, unlocked[..n]).value;
    if unlocked[n] != i {
      VisitedIsEmpty(instances, worker, unlocked[..n], i, f, k);
    }
  }

  /** Main result: a flush message carries a gauge exactly when a visited instance holds a value for it, and
      then the value of the last such instance. */
  lemma {:induction false} FlushSendsLastVisited(
      instances: seq<Instance>, worker: nat, unlocked: seq<nat>, f: string, k: MetricKey)
    requires FlushAll(instances, worker, unlocked).Some?
    ensures GaugeOf(FlushAll(instances, worker, unlocked).value.1, f, k) ==
            LastVisited(instances, worker, unlocked, f, k)
  {
    if unlocked != [] {
      var n := |unlocked| - 1;
      FlushSendsLastVisited(instances, worker, unlocked[..n], f, k);
      var (mid, m) := FlushAll(instances, worker, unlocked[..n]).value;
      FlushOneGauge(mid, worker, unlocked[n], m, f, k);
      FlushAllShape(instances, worker, unlocked[..n]);
      if unlocked[n] in unlocked[..n] {
        VisitedIsEmpty(instances, worker, unlocked[..n], unlocked[n], f, k);
      }
    }
  }

  /** The log says: a flush that visits instance `i` finds a value for the gauge, the one it was last set to. */
  ghost predicate Offers(actions: seq<Action>, worker: nat, i: nat, f: string, k: MetricKey, v: int) {
    && LifeOf(actions, i) == Some(Life(worker, f, true))
    && exists id: nat :: Names(CallsOf(actions, i), k, id) && LastSetTo(CallsOf(actions, i), id, v)
  }

  lemma OffersExactly(actions: seq<Action>, worker: nat, i: nat, f: string, k: MetricKey, v: int)
    requires Run(actions).Some?
    ensures PendingGauge(Run(actions).value.instances, worker, i, f, k) == Some(v)
            <==> Offers(actions, worker, i, f, k, v)
  {
    InstancesFollowLog(actions, i);
    var calls := CallsOf(actions, i);
    if i < Deployed(actions) {
      var m := Run(actions).value.instances[i].metrics;
      if k in m.ids {
        NamesExactly(calls, k, m.ids[k]);
        PendingGaugeExactly(calls, m.ids[k], v);
      }
      if id: nat :| Names(calls, k, id) && LastSetTo(calls, id, v) {
        NamesExactly(calls, k, id);
        PendingGaugeExactly(calls, id, v);
      }
    }
  }

  /** The visit at `n` is the first to its instance, finds the value, and no first visit after it finds any. */
  ghost predicate LastOffer(
      actions: seq<Action>, worker: nat, unlocked: seq<nat>, n: nat, f: string, k: MetricKey, v: int) {
    && n < |unlocked| && unlocked[n] !in unlocked[..n] && Offers(actions, worker, unlocked[n], f, k, v)
    && forall m, u :: n < m < |unlocked| && unlocked[m] !in unlocked[..m] ==>
         !Offers(actions, worker, unlocked[m], f, k, u)
  }

  lemma SameOffers(
      actions: seq<Action>, worker: nat, unlocked: seq<nat>, n: nat, f: string, k: MetricKey, v: int,
      offer: nat -> Option<int>)
    requires forall i: nat, u: int :: offer(i) == Some(u) <==> Offers(actions, worker, i, f, k, u)
    ensures LastAt(offer, unlocked, n, v) <==> LastOffer(actions, worker, unlocked, n, f, k, v)
  {
    forall i: nat
      ensures offer(i) == None <==> forall u :: !Offers(actions, worker, i, f, k, u)
    {
      if offer(i).Some? {
        assert Offers(actions, worker, i, f, k, offer(i).value);
      }
    }
  }

  /** Main result: in any run a flush sends for a gauge the value it was last set to by the last instance it
      visits that set it since its last flush; and nothing when none did. */
  lemma FlushSendsLastSet(actions: seq<Action>, worker: nat, unlocked: seq<nat>, f: string, k: MetricKey, v: int)
    requires Run(actions).Some? && FlushAll(Run(actions).value.instances, worker, unlocked).Some?
    ensures GaugeOf(FlushAll(Run(actions).value.instances, worker, unlocked).value.1, f, k) == Some(v)
            <==> exists n: nat :: LastOffer(actions, worker, unlocked, n, f, k, v)
  {
    var instances := Run(actions).value.instances;
    var offer := Offer(instances, worker, f, k);
    FlushSendsLastVisited(instances, worker, unlocked, f, k);
    LastOfExactly(offer, unlocked, v);
    forall i: nat, u: int
      ensures offer(i) == Some(u) <==> Offers(actions, worker, i, f, k, u)
    {
      OffersExactly(actions, worker, i, f, k, u);
    }
    forall n: nat
      ensures LastAt(offer, unlocked, n, v) <==> LastOffer(actions, worker, unlocked, n, f, k, v)
    {
      SameOffers(actions, worker, unlocked, n, f, k, v, offer);
    }
  }
}
