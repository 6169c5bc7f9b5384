/** What holds of the cron task over every run. */
module CronProperties {
  import opened Common
  import opened CronModel

  // ---- One invocation per task at a time ----

  ghost predicate DistinctTasks(flights: seq<Flight>) {
    forall i, j :: 0 <= i < j < |flights| ==> flights[i].task.taskId != flights[j].task.taskId
  }

  function TasksOf(flights: seq<Flight>): set<string> {
    set i | 0 <= i < |flights| :: flights[i].task.taskId
  }

  /** Event `e` is the one at which a future of task `id` returns early. */
  predicate EndsEarly(next: Next, c: Cron, e: Event, id: string) {
    && e.Begin? && InPhase(c, e.flight, Started)
    && GivesUp(next, c.managementUp, c.flights[e.flight])
    && c.flights[e.flight].task.taskId == id
  }

  function StuckAfter(next: Next, c: Cron, e: Event, stuck: set<string>): set<string> {
    if e.Restart? then {}
    else if e.Begin? && InPhase(c, e.flight, Started) && EndsEarly(next, c, e, c.flights[e.flight].task.taskId) then
      stuck + {c.flights[e.flight].task.taskId}
    else stuck
  }

  /** The tasks of the futures that returned early since the last restart. */
  function GivenUp(next: Next, lastRun: map<string, Time>, events: seq<Event>): set<string> {
    if events == [] then {}
    else
      var before, e := events[..|events| - 1], events[|events| - 1];
      StuckAfter(next, Run(next, lastRun, before), e, GivenUp(next, lastRun, before))
  }

  ghost predicate Exclusive(c: Cron, stuck: set<string>) {
    && DistinctTasks(c.flights)
    && c.running == TasksOf(c.flights) + stuck
    && TasksOf(c.flights) !! stuck
  }

  lemma VisitExclusive(next: Next, c: Cron, e: Entry, look: Look, stuck: set<string>)
    requires Exclusive(c, stuck)
    ensures Exclusive(Visit(next, c, e, look), stuck)
  {
    if Starts(next, c, e, look) {
      var after := c.flights + [Flight(e, look.now, Started)];
      assert TasksOf(after) == TasksOf(c.flights) + {e.taskId} by {
        forall x | x in TasksOf(c.flights) + {e.taskId}
          ensures x in TasksOf(after)
        {
          if x in TasksOf(c.flights) {
            var i :| 0 <= i < |c.flights| && c.flights[i].task.taskId == x;
            assert after[i].task.taskId == x;
          } else {
            assert after[|c.flights|].task.taskId == x;
          }
        }
      }
      forall i | 0 <= i < |c.flights|
        ensures c.flights[i].task.taskId != e.taskId
      {
        assert c.flights[i].task.taskId in TasksOf(c.flights);
      }
    }
  }

  lemma {:induction false} PassExclusive(next: Next, c: Cron, looks: seq<Look>, n: nat, stuck: set<string>)
    requires Exclusive(c, stuck) && n <= |c.entries| && n <= |looks|
    ensures Exclusive(VisitAll(next, c, looks, n), stuck)
  {
    if n > 0 {
      PassExclusive(next, c, looks, n - 1, stuck);
      VisitExclusive(next, VisitAll(next, c, looks, n - 1), c.entries[n - 1], looks[n - 1], stuck);
    }
  }

  lemma WithoutTasks(flights: seq<Flight>, i: nat)
    requires i < |flights| && DistinctTasks(flights)
    ensures DistinctTasks(Without(flights, i))
    ensures TasksOf(Without(flights, i)) == TasksOf(flights) - {flights[i].task.taskId}
    ensures flights[i].task.taskId in TasksOf(flights)
  {
    var after := Without(flights, i);
    forall x
      ensures x in TasksOf(after) <==> x in TasksOf(flights) && x != flights[i].task.taskId
    {
      if x in TasksOf(flights) && x != flights[i].task.taskId {
        var j :| 0 <= j < |flights| && flights[j].task.taskId == x;
        assert after[if j < i then j else j - 1].task.taskId == x;
      }
      if x in TasksOf(after) {
        var j :| 0 <= j < |after| && after[j].task.taskId == x;
        assert flights[if j < i then j else j + 1].task.taskId == x;
      }
    }
  }

  lemma SameTasks(flights: seq<Flight>, i: nat, phase: Phase)
    requires i < |flights|
    ensures var after := flights[i := flights[i].(phase := phase)];
            TasksOf(after) == TasksOf(flights) && (DistinctTasks(flights) ==> DistinctTasks(after))
  {
    var after := flights[i := flights[i].(phase := phase)];
    assert forall j :: 0 <= j < |after| ==> after[j].task.taskId == flights[j].task.taskId;
    assert TasksOf(after) == TasksOf(flights);
  }

  lemma StepExclusive(next: Next, c: Cron, e: Event, stuck: set<string>)
    requires Exclusive(c, stuck)
    ensures Exclusive(Step(next, c, e), StuckAfter(next, c, e, stuck))
  {
    match e
    case ScheduleAdd(_, _) =>
    case Pass(looks) =>
      if |looks| == |c.entries| {
        PassExclusive(next, c, looks, |looks|, stuck);
      }
    case Begin(i) =>
      if InPhase(c, i, Started) {
        WithoutTasks(c.flights, i);
        SameTasks(c.flights, i, Invoking);
      }
    case Settle(i, _, _, _) =>
      if InPhase(c, i, Invoking) {
        SameTasks(c.flights, i, Finishing);
      }
    case Finish(i) =>
      if InPhase(c, i, Finishing) {
        WithoutTasks(c.flights, i);
      }
    case ManagementDown =>
    case Restart =>
  }

  /** Main result: over every run, however often entries are listed twice and in whatever order futures
      end, no two futures in flight are for one task, and the running set is exactly the tasks in
      flight together with the tasks whose future gave up. */
  lemma {:induction false} AtMostOneFlightPerTask(next: Next, lastRun: map<string, Time>, events: seq<Event>)
    ensures Exclusive(Run(next, lastRun, events), GivenUp(next, lastRun, events))
  {
    if events != [] {
      var n := |events| - 1;
      AtMostOneFlightPerTask(next, lastRun, events[..n]);
      StepExclusive(next, Run(next, lastRun, events[..n]), events[n], GivenUp(next, lastRun, events[..n]));
    }
  }

  // ---- What one pass starts ----

  predicate Permits(next: Next, s: ScheduleId, previous: Time, t: Time) {
    next(s, previous).Some? && next(s, previous).value <= t
  }

  /** The last run time can be read, and there is none or the schedule permits a run after it by now. */
  predicate DueNow(next: Next, lastRun: map<string, Time>, e: Entry, look: Look) {
    look.readable && (e.taskId in lastRun ==> Permits(next, e.schedule, lastRun[e.taskId], look.now))
  }

  predicate MayStart(next: Next, c: Cron, e: Entry, look: Look) {
    e.taskId !in c.running && DueNow(next, c.lastRun, e, look)
  }

  /** Entry `i` is the first due entry of its task among the first `n`, and the task is not running. */
  ghost predicate FirstDue(next: Next, c: Cron, looks: seq<Look>, n: nat, i: nat)
    requires n <= |c.entries| && n <= |looks|
  {
    && i < n
    && MayStart(next, c, c.entries[i], looks[i])
    && forall j :: 0 <= j < i && c.entries[j].taskId == c.entries[i].taskId ==>
         !MayStart(next, c, c.entries[j], looks[j])
  }

  lemma {:induction false} PassKeeps(next: Next, c: Cron, looks: seq<Look>, n: nat)
    requires n <= |c.entries| && n <= |looks|
    ensures var after := VisitAll(next, c, looks, n);
            && after.entries == c.entries && after.lastRun == c.lastRun && after.managementUp == c.managementUp
            && c.running <= after.running && c.flights <= after.flights
  {
    if n > 0 {
      PassKeeps(next, c, looks, n - 1);
    }
  }

  lemma {:induction false} PassRunning(next: Next, c: Cron, looks: seq<Look>, n: nat)
    requires n <= |c.entries| && n <= |looks|
    ensures forall id :: id in VisitAll(next, c, looks, n).running <==>
              id in c.running || exists i ::
                   0 <= i < n && c.entries[i].taskId == id && MayStart(next, c, c.entries[i], looks[i])
  {
    if n > 0 {
      PassRunning(next, c, looks, n - 1);
      PassKeeps(next, c, looks, n - 1);
    }
  }

  /** `f` is the future started for a first due entry. */
  ghost predicate StartedFor(next: Next, c: Cron, looks: seq<Look>, n: nat, i: nat, f: Flight)
    requires n <= |c.entries| && n <= |looks|
  {
    FirstDue(next, c, looks, n, i) && f == Flight(c.entries[i], looks[i].now, Started)
  }

  ghost predicate StartedForSome(next: Next, c: Cron, looks: seq<Look>, n: nat, f: Flight)
    requires n <= |c.entries| && n <= |looks|
  {
    exists i: nat :: StartedFor(next, c, looks, n, i, f)
  }

  ghost predicate EveryDueStarted(next: Next, c: Cron, looks: seq<Look>, n: nat, flights: seq<Flight>)
    requires n <= |c.entries| && n <= |looks| && |c.flights| <= |flights|
  {
    forall i: nat :: FirstDue(next, c, looks, n, i) ==>
      Flight(c.entries[i], looks[i].now, Started) in flights[|c.flights|..]
  }

  ghost predicate OnlyDueStarted(next: Next, c: Cron, looks: seq<Look>, n: nat, flights: seq<Flight>)
    requires n <= |c.entries| && n <= |looks|
  {
    forall k :: |c.flights| <= k < |flights| ==> StartedForSome(next, c, looks, n, flights[k])
  }

  ghost predicate StartedOnce(c: Cron, flights: seq<Flight>) {
    forall j, k :: |c.flights| <= j < k < |flights| ==> flights[j].task.taskId != flights[k].task.taskId
  }

  lemma {:induction false} PassStartsOnlyDue(next: Next, c: Cron, looks: seq<Look>, n: nat)
    requires n <= |c.entries| && n <= |looks|
    ensures OnlyDueStarted(next, c, looks, n, VisitAll(next, c, looks, n).flights)
  {
    if n > 0 {
      PassStartsOnlyDue(next, c, looks, n - 1);
      PassRunning(next, c, looks, n - 1);
      PassKeeps(next, c, looks, n - 1);
      var before, after := VisitAll(next, c, looks, n - 1), VisitAll(next, c, looks, n);
      forall k | |c.flights| <= k < |after.flights|
        ensures StartedForSome(next, c, looks, n, after.flights[k])
      {
        if k < |before.flights| {
          assert StartedForSome(next, c, looks, n - 1, before.flights[k]);
          var i: nat :| StartedFor(next, c, looks, n - 1, i, before.flights[k]);
          assert StartedFor(next, c, looks, n, i, after.flights[k]);
        } else {
          assert StartedFor(next, c, looks, n, n - 1, after.flights[k]);
        }
      }
    }
  }

  lemma StillStarted(before: seq<Flight>, after: seq<Flight>, n: nat, f: Flight)
    requires n <= |before| && before <= after && f in before[n..]
    ensures f in after[n..]
  {
  }

  lemma FirstDueStarts(next: Next, c: Cron, looks: seq<Look>, n: nat)
    requires 0 < n <= |c.entries| && n <= |looks| && FirstDue(next, c, looks, n, n - 1)
    ensures VisitAll(next, c, looks, n).flights ==
            VisitAll(next, c, looks, n - 1).flights + [Flight(c.entries[n - 1], looks[n - 1].now, Started)]
  {
    PassRunning(next, c, looks, n - 1);
    PassKeeps(next, c, looks, n - 1);
  }

  lemma {:induction false} PassStartsEveryDue(next: Next, c: Cron, looks: seq<Look>, n: nat)
    requires n <= |c.entries| && n <= |looks|
    ensures |c.flights| <= |VisitAll(next, c, looks, n).flights|
    ensures EveryDueStarted(next, c, looks, n, VisitAll(next, c, looks, n).flights)
  {
    PassKeeps(next, c, looks, n);
    if n > 0 {
      PassStartsEveryDue(next, c, looks, n - 1);
      var before, after := VisitAll(next, c, looks, n - 1).flights, VisitAll(next, c, looks, n).flights;
      assert before <= after;
      forall i: nat | FirstDue(next, c, looks, n, i)
        ensures Flight(c.entries[i], looks[i].now, Started) in after[|c.flights|..]
      {
        if i < n - 1 {
          assert FirstDue(next, c, looks, n - 1, i);
          StillStarted(before, after, |c.flights|, Flight(c.entries[i], looks[i].now, Started));
        } else {
          FirstDueStarts(next, c, looks, n);
          assert after[|c.flights|..][|before| - |c.flights|] == Flight(c.entries[i], looks[i].now, Started);
        }
      }
    }
  }

  lemma {:induction false} PassStartsOnce(next: Next, c: Cron, looks: seq<Look>, n: nat)
    requires n <= |c.entries| && n <= |looks|
    ensures StartedOnce(c, VisitAll(next, c, looks, n).flights)
    ensures forall k :: |c.flights| <= k < |VisitAll(next, c, looks, n).flights| ==>
              VisitAll(next, c, looks, n).flights[k].task.taskId in VisitAll(next, c, looks, n).running
  {
    if n > 0 {
      PassStartsOnce(next, c, looks, n - 1);
    }
  }

  /** Main result: after a pass every entry is running or was not due, and the futures started are exactly one
      per task with a due entry that was not running, from the first such entry and at its clock reading; an
      entry of a task that has no recorded run is due whenever it can be read. */
  lemma PassIsComplete(next: Next, c: Cron, looks: seq<Look>)
    requires |looks| == |c.entries|
    ensures var after := Step(next, c, Pass(looks));
            && (forall i :: 0 <= i < |looks| ==>
                  c.entries[i].taskId in after.running || !DueNow(next, c.lastRun, c.entries[i], looks[i]))
            && (forall id :: id in after.running <==>
                  id in c.running ||
                  exists i ::
                    0 <= i < |looks| && c.entries[i].taskId == id && MayStart(next, c, c.entries[i], looks[i]))
            && after.entries == c.entries && after.lastRun == c.lastRun
            && c.flights <= after.flights
            && EveryDueStarted(next, c, looks, |looks|, after.flights)
            && OnlyDueStarted(next, c, looks, |looks|, after.flights)
            && StartedOnce(c, after.flights)
  {
    PassKeeps(next, c, looks, |looks|);
    PassRunning(next, c, looks, |looks|);
    PassStartsEveryDue(next, c, looks, |looks|);
    PassStartsOnlyDue(next, c, looks, |looks|);
    PassStartsOnce(next, c, looks, |looks|);
  }

  // ---- When a task is down for good ----

  /** The id counts as running, and nothing in flight can take it out of the set. */
  predicate Down(c: Cron, id: string) {
    id in c.running && id !in TasksOf(c.flights)
  }

  ghost predicate NoRestart(events: seq<Event>, from: nat) {
    forall k :: from <= k < |events| ==> !events[k].Restart?
  }

  /** The pass at `p` starts future `f`, from the first due entry of its task. */
  ghost predicate StartsAt(next: Next, lastRun: map<string, Time>, events: seq<Event>, p: nat, f: Flight) {
    && p < |events| && events[p].Pass?
    && var c := Run(next, lastRun, events[..p]);
    && |events[p].looks| == |c.entries|
    && StartedForSome(next, c, events[p].looks, |c.entries|, f)
  }

  /** The future of task `id` is polled at `n` for the first time. */
  ghost predicate BeginsAt(next: Next, lastRun: map<string, Time>, events: seq<Event>, n: nat, id: string) {
    && n < |events| && events[n].Begin?
    && var c := Run(next, lastRun, events[..n]);
    && InPhase(c, events[n].flight, Started) && c.flights[events[n].flight].task.taskId == id
  }

  /** Since the pass at `p` started it, the future has not been polled. */
  ghost predicate WaitsSince(next: Next, lastRun: map<string, Time>, events: seq<Event>, p: nat, f: Flight) {
    && StartsAt(next, lastRun, events, p, f)
    && NoRestart(events, p)
    && forall m :: p < m < |events| ==> !BeginsAt(next, lastRun, events, m, f.task.taskId)
  }

  ghost predicate ManagementGone(events: seq<Event>) {
    exists m: nat :: m < |events| && events[m].ManagementDown? && NoRestart(events, m)
  }

  /** The pass at `p` started future `f`, which was polled at `n`; and its schedule had no instant after the
      clock of the pass, or its endpoint does not parse, or management had gone by then. */
  ghost predicate GaveUp(next: Next, lastRun: map<string, Time>, events: seq<Event>, p: nat, n: nat, f: Flight) {
    && p < n < |events|
    && NoRestart(events, p)
    && WaitsSince(next, lastRun, events[..n], p, f)
    && BeginsAt(next, lastRun, events, n, f.task.taskId)
    && (next(f.task.schedule, f.startedAt).None? || !f.task.endpointParses || ManagementGone(events[..n]))
  }

  lemma {:induction false} ManagementFollowsLog(next: Next, lastRun: map<string, Time>, events: seq<Event>)
    ensures Run(next, lastRun, events).managementUp <==> !ManagementGone(events)
  {
    if events != [] {
      var n := |events| - 1;
      ManagementFollowsLog(next, lastRun, events[..n]);
      if events[n].Pass? && |events[n].looks| == |Run(next, lastRun, events[..n]).entries| {
        PassKeeps(next, Run(next, lastRun, events[..n]), events[n].looks, |events[n].looks|);
      }
      if events[n].ManagementDown? {
        assert NoRestart(events, n);
      } else if !events[n].Restart? {
        if m: nat :| m < n && events[..n][m].ManagementDown? && NoRestart(events[..n], m) {
          assert events[m].ManagementDown? && NoRestart(events, m);
        }
        if m: nat :| m < |events| && events[m].ManagementDown? && NoRestart(events, m) {
          assert events[..n][m].ManagementDown? && NoRestart(events[..n], m);
        }
      }
    }
  }

  lemma BeginsPrefix(next: Next, lastRun: map<string, Time>, events: seq<Event>, m: nat, id: string)
    requires m < |events| - 1
    ensures BeginsAt(next, lastRun, events[..|events| - 1], m, id) <==> BeginsAt(next, lastRun, events, m, id)
  {
    assert events[..|events| - 1][..m] == events[..m];
  }

  lemma StartsPrefix(next: Next, lastRun: map<string, Time>, events: seq<Event>, p: nat, f: Flight)
    requires p < |events| - 1
    ensures StartsAt(next, lastRun, events[..|events| - 1], p, f) <==> StartsAt(next, lastRun, events, p, f)
  {
    assert events[..|events| - 1][..p] == events[..p];
  }

  lemma WaitsPrefix(next: Next, lastRun: map<string, Time>, events: seq<Event>, p: nat, f: Flight)
    requires p < |events| - 1
    ensures var n := |events| - 1;
            WaitsSince(next, lastRun, events, p, f) <==>
            && WaitsSince(next, lastRun, events[..n], p, f)
            && !events[n].Restart? && !BeginsAt(next, lastRun, events, n, f.task.taskId)
  {
    var n := |events| - 1;
    StartsPrefix(next, lastRun, events, p, f);
    forall m: nat | m < n
      ensures BeginsAt(next, lastRun, events[..n], m, f.task.taskId) <==>
              BeginsAt(next, lastRun, events, m, f.task.taskId)
    {
      BeginsPrefix(next, lastRun, events, m, f.task.taskId);
    }
    assert NoRestart(events, p) <==> NoRestart(events[..n], p) && !events[n].Restart?;
  }

  lemma KeptWithout(flights: seq<Flight>, i: nat, k: nat)
    requires i < |flights| && k < |flights| && i != k
    ensures flights[k] in Without(flights, i)
  {
    assert Without(flights, i)[if k < i then k else k - 1] == flights[k];
  }

  /** A future that was not polled yet stays in flight unless it is polled or the process is restarted. */
  lemma UnpolledStays(next: Next, c: Cron, e: Event, f: Flight)
    requires f in c.flights && f.phase.Started? && !e.Restart?
    requires e.Begin? && InPhase(c, e.flight, Started) ==> c.flights[e.flight].task.taskId != f.task.taskId
    ensures f in Step(next, c, e).flights
  {
    var k: nat :| k < |c.flights| && c.flights[k] == f;
    match e
    case Pass(looks) =>
      if |looks| == |c.entries| {
        PassKeeps(next, c, looks, |looks|);
        assert VisitAll(next, c, looks, |looks|).flights[k] == f;
      }
    case Begin(i) =>
      if InPhase(c, i, Started) {
        KeptWithout(c.flights, i, k);
        assert c.flights[i := c.flights[i].(phase := Invoking)][k] == f;
      }
    case Settle(i, _, _, _) =>
      if InPhase(c, i, Invoking) {
        assert c.flights[i := c.flights[i].(phase := Finishing)][k] == f;
      }
    case Finish(i) =>
      if InPhase(c, i, Finishing) {
        KeptWithout(c.flights, i, k);
      }
    case _ =>
  }

  /** A future that waits is in flight as it was started. */
  lemma {:induction false} WaitingIsInFlight(
      next: Next, lastRun: map<string, Time>, events: seq<Event>, p: nat, f: Flight)
    requires WaitsSince(next, lastRun, events, p, f)
    ensures f in Run(next, lastRun, events).flights
  {
    var n := |events| - 1;
    var c := Run(next, lastRun, events[..n]);
    if p == n {
      PassStartsEveryDue(next, c, events[n].looks, |c.entries|);
    } else {
      WaitsPrefix(next, lastRun, events, p, f);
      WaitingIsInFlight(next, lastRun, events[..n], p, f);
      UnpolledStays(next, c, events[n], f);
    }
  }

  /** The converse of `UnpolledStays`: nobody else puts an unpolled future in flight. */
  lemma UnpolledWas(next: Next, c: Cron, e: Event, f: Flight)
    requires DistinctTasks(c.flights) && f.phase.Started? && f in Step(next, c, e).flights
    ensures !e.Restart?
    ensures f in c.flights || (e.Pass? && |e.looks| == |c.entries| && StartedForSome(next, c, e.looks, |c.entries|, f))
    ensures f in c.flights && e.Begin? && InPhase(c, e.flight, Started) ==>
              c.flights[e.flight].task.taskId != f.task.taskId
  {
    var k: nat :| k < |Step(next, c, e).flights| && Step(next, c, e).flights[k] == f;
    if e.Pass? && |e.looks| == |c.entries| {
      PassKeeps(next, c, e.looks, |e.looks|);
      PassStartsOnlyDue(next, c, e.looks, |e.looks|);
    }
  }

  /** Every future in flight that was not polled yet was started by a pass and waits since. */
  lemma {:induction false} InFlightIsWaiting(next: Next, lastRun: map<string, Time>, events: seq<Event>, f: Flight)
    requires f in Run(next, lastRun, events).flights && f.phase.Started?
    ensures exists p: nat :: WaitsSince(next, lastRun, events, p, f)
  {
    var n := |events| - 1;
    var c := Run(next, lastRun, events[..n]);
    AtMostOneFlightPerTask(next, lastRun, events[..n]);
    UnpolledWas(next, c, events[n], f);
    if f in c.flights {
      InFlightIsWaiting(next, lastRun, events[..n], f);
      var p: nat :| WaitsSince(next, lastRun, events[..n], p, f);
      WaitsPrefix(next, lastRun, events, p, f);
    } else {
      assert WaitsSince(next, lastRun, events, n, f);
    }
  }

  /** The first poll of the task after its start is the poll of that very future. */
  lemma BeginOfWaiting(next: Next, lastRun: map<string, Time>, events: seq<Event>, p: nat, n: nat, f: Flight)
    requires n < |events| && WaitsSince(next, lastRun, events[..n], p, f)
    requires BeginsAt(next, lastRun, events, n, f.task.taskId)
    ensures Run(next, lastRun, events[..n]).flights[events[n].flight] == f
  {
    WaitingIsInFlight(next, lastRun, events[..n], p, f);
    AtMostOneFlightPerTask(next, lastRun, events[..n]);
    var c := Run(next, lastRun, events[..n]);
    var k: nat :| k < |c.flights| && c.flights[k] == f;
  }

  lemma GaveUpPrefix(next: Next, lastRun: map<string, Time>, events: seq<Event>, p: nat, n: nat, f: Flight)
    requires n < |events| - 1
    ensures GaveUp(next, lastRun, events, p, n, f) <==>
            GaveUp(next, lastRun, events[..|events| - 1], p, n, f) && !events[|events| - 1].Restart?
  {
    var m := |events| - 1;
    assert events[..m][..n] == events[..n];
    assert p <= m ==> (NoRestart(events, p) <==> NoRestart(events[..m], p) && !events[m].Restart?);
  }

  lemma EarlyEndWaited(next: Next, lastRun: map<string, Time>, events: seq<Event>, n: nat, id: string)
    requires n == |events| - 1 && EndsEarly(next, Run(next, lastRun, events[..n]), events[n], id)
    ensures exists p: nat, f: Flight :: GaveUp(next, lastRun, events, p, n, f) && f.task.taskId == id
  {
    var f := Run(next, lastRun, events[..n]).flights[events[n].flight];
    ManagementFollowsLog(next, lastRun, events[..n]);
    InFlightIsWaiting(next, lastRun, events[..n], f);
    var p: nat :| WaitsSince(next, lastRun, events[..n], p, f);
    assert NoRestart(events, p);
    assert GaveUp(next, lastRun, events, p, n, f);
  }

  lemma GaveUpEndsEarly(next: Next, lastRun: map<string, Time>, events: seq<Event>, p: nat, n: nat, f: Flight)
    requires GaveUp(next, lastRun, events, p, n, f)
    ensures EndsEarly(next, Run(next, lastRun, events[..n]), events[n], f.task.taskId)
  {
    ManagementFollowsLog(next, lastRun, events[..n]);
    BeginOfWaiting(next, lastRun, events, p, n, f);
  }

  ghost predicate TaskGaveUp(next: Next, lastRun: map<string, Time>, events: seq<Event>, id: string) {
    exists p: nat, n: nat, f: Flight :: GaveUp(next, lastRun, events, p, n, f) && f.task.taskId == id
  }

  lemma TaskGaveUpStep(next: Next, lastRun: map<string, Time>, events: seq<Event>, id: string)
    requires events != []
    ensures var n := |events| - 1;
            TaskGaveUp(next, lastRun, events, id) <==>
            !events[n].Restart? &&
            (TaskGaveUp(next, lastRun, events[..n], id) ||
             EndsEarly(next, Run(next, lastRun, events[..n]), events[n], id))
  {
    var n := |events| - 1;
    if EndsEarly(next, Run(next, lastRun, events[..n]), events[n], id) {
      EarlyEndWaited(next, lastRun, events, n, id);
    }
    if p: nat, m: nat, f: Flight :| GaveUp(next, lastRun, events, p, m, f) && f.task.taskId == id {
      if m < n {
        GaveUpPrefix(next, lastRun, events, p, m, f);
      } else {
        GaveUpEndsEarly(next, lastRun, events, p, n, f);
      }
    }
    if p: nat, m: nat, f: Flight :| GaveUp(next, lastRun, events[..n], p, m, f) && f.task.taskId == id {
      GaveUpPrefix(next, lastRun, events, p, m, f);
    }
  }

  lemma {:induction false} GivenUpExactly(next: Next, lastRun: map<string, Time>, events: seq<Event>, id: string)
    ensures id in GivenUp(next, lastRun, events) <==> TaskGaveUp(next, lastRun, events, id)
  {
    if events != [] {
      GivenUpExactly(next, lastRun, events[..|events| - 1], id);
      TaskGaveUpStep(next, lastRun, events, id);
    }
  }

  lemma {:induction false} GivenUpStays(next: Next, lastRun: map<string, Time>, events: seq<Event>, more: seq<Event>)
    requires NoRestart(more, 0)
    ensures GivenUp(next, lastRun, events) <= GivenUp(next, lastRun, events + more)
  {
    if more == [] {
      assert events + more == events;
    } else {
      var n := |more| - 1;
      GivenUpStays(next, lastRun, events, more[..n]);
      assert (events + more)[..|events + more| - 1] == events + more[..n];
    }
  }

  lemma DownIsGivenUp(next: Next, lastRun: map<string, Time>, events: seq<Event>, id: string)
    ensures Down(Run(next, lastRun, events), id) <==> id in GivenUp(next, lastRun, events)
  {
    AtMostOneFlightPerTask(next, lastRun, events);
  }

  /** Nothing of the task is in flight, its id counts as running, and so it stays until a restart. */
  ghost predicate DownForGood(next: Next, lastRun: map<string, Time>, events: seq<Event>, id: string) {
    forall more: seq<Event> :: NoRestart(more, 0) ==> Down(Run(next, lastRun, events + more), id)
  }

  /** A task is down for good exactly when, since the last restart, one of its futures returned early. */
  lemma DownForGoodExactlyWhen(next: Next, lastRun: map<string, Time>, events: seq<Event>, id: string)
    ensures DownForGood(next, lastRun, events, id) <==> TaskGaveUp(next, lastRun, events, id)
    ensures Down(Run(next, lastRun, events), id) <==> TaskGaveUp(next, lastRun, events, id)
  {
    GivenUpExactly(next, lastRun, events, id);
    DownIsGivenUp(next, lastRun, events, id);
    assert events + [] == events && NoRestart([], 0);
    forall more: seq<Event> | NoRestart(more, 0) && id in GivenUp(next, lastRun, events)
      ensures Down(Run(next, lastRun, events + more), id)
    {
      GivenUpStays(next, lastRun, events, more);
      DownIsGivenUp(next, lastRun, events + more, id);
    }
  }

  // ---- When a task never leaves the running set ----

  /** A future of the task waits for its first poll and will return early whenever that comes. */
  predicate Doomed(next: Next, c: Cron, id: string) {
    exists k :: 0 <= k < |c.flights| && c.flights[k].task.taskId == id && c.flights[k].phase.Started?
                && GivesUp(next, c.managementUp, c.flights[k])
  }

  /** The same, read off the log. */
  ghost predicate BoundToGiveUp(next: Next, lastRun: map<string, Time>, events: seq<Event>, id: string) {
    exists p: nat, f: Flight :: WaitsSince(next, lastRun, events, p, f) && f.task.taskId == id
      && (next(f.task.schedule, f.startedAt).None? || !f.task.endpointParses || ManagementGone(events))
  }

  lemma BoundIsDoomed(next: Next, lastRun: map<string, Time>, events: seq<Event>, id: string)
    ensures BoundToGiveUp(next, lastRun, events, id) <==> Doomed(next, Run(next, lastRun, events), id)
  {
    var c := Run(next, lastRun, events);
    ManagementFollowsLog(next, lastRun, events);
    if BoundToGiveUp(next, lastRun, events, id) {
      var p: nat, f: Flight :| WaitsSince(next, lastRun, events, p, f) && f.task.taskId == id
        && (next(f.task.schedule, f.startedAt).None? || !f.task.endpointParses || ManagementGone(events));
      WaitingIsInFlight(next, lastRun, events, p, f);
    }
    if k: nat :| k < |c.flights| && c.flights[k].task.taskId == id && c.flights[k].phase.Started?
                 && GivesUp(next, c.managementUp, c.flights[k]) {
      InFlightIsWaiting(next, lastRun, events, c.flights[k]);
    }
  }

  lemma StepKeepsDoomed(next: Next, c: Cron, e: Event, id: string, stuck: set<string>)
    requires Exclusive(c, stuck) && !e.Restart?
    requires Doomed(next, c, id) || id in stuck
    ensures Doomed(next, Step(next, c, e), id) || id in StuckAfter(next, c, e, stuck)
  {
    if id !in stuck {
      var k :| 0 <= k < |c.flights| && c.flights[k].task.taskId == id && c.flights[k].phase.Started?
               && GivesUp(next, c.managementUp, c.flights[k]);
      if e.Pass? && |e.looks| == |c.entries| {
        PassKeeps(next, c, e.looks, |e.looks|);
      }
      if !(e.Begin? && e.flight == k) {
        UnpolledStays(next, c, e, c.flights[k]);
      }
    }
  }

  lemma {:induction false} DoomedStays(
      next: Next, lastRun: map<string, Time>, events: seq<Event>, more: seq<Event>, id: string)
    requires NoRestart(more, 0)
    requires Doomed(next, Run(next, lastRun, events), id) || id in GivenUp(next, lastRun, events)
    ensures Doomed(next, Run(next, lastRun, events + more), id) || id in GivenUp(next, lastRun, events + more)
  {
    if more == [] {
      assert events + more == events;
    } else {
      var n := |more| - 1;
      var before := events + more[..n];
      DoomedStays(next, lastRun, events, more[..n], id);
      AtMostOneFlightPerTask(next, lastRun, before);
      assert (events + more)[..|events + more| - 1] == before;
      StepKeepsDoomed(next, Run(next, lastRun, before), more[n], id, GivenUp(next, lastRun, before));
    }
  }

  /** The events that bring the future at `k` to its end, from the phase it is in. */
  function WayOut(phase: Phase, k: nat): seq<Event> {
    match phase
    case Started => [Begin(k), Settle(k, 0, false, false), Finish(k)]
    case Invoking => [Settle(k, 0, false, false), Finish(k)]
    case Finishing => [Finish(k)]
  }

  lemma RunOneMore(next: Next, lastRun: map<string, Time>, events: seq<Event>, e: Event)
    ensures Run(next, lastRun, events + [e]) == Step(next, Run(next, lastRun, events), e)
  {
    assert (events + [e])[..|events|] == events;
  }

  /** A future that is not doomed can end, and then the task may be started again. */
  lemma {:induction false} WayOutLeaves(next: Next, lastRun: map<string, Time>, events: seq<Event>, k: nat)
    requires var c := Run(next, lastRun, events);
             && k < |c.flights|
             && !(c.flights[k].phase.Started? && GivesUp(next, c.managementUp, c.flights[k]))
    ensures var f := Run(next, lastRun, events).flights[k];
            f.task.taskId !in Run(next, lastRun, events + WayOut(f.phase, k)).running
    decreases match Run(next, lastRun, events).flights[k].phase case Started => 2 case Invoking => 1 case Finishing => 0
  {
    var f := Run(next, lastRun, events).flights[k];
    var way := WayOut(f.phase, k);
    RunOneMore(next, lastRun, events, way[0]);
    if !f.phase.Finishing? {
      WayOutLeaves(next, lastRun, events + [way[0]], k);
      assert events + way == events + [way[0]] + way[1..];
    }
  }

  /** Until a restart the id never leaves the running set, so that no pass starts the task again. */
  ghost predicate NeverLeavesRunning(next: Next, lastRun: map<string, Time>, events: seq<Event>, id: string) {
    forall more: seq<Event> :: NoRestart(more, 0) ==> id in Run(next, lastRun, events + more).running
  }

  lemma OthersCanLeave(next: Next, lastRun: map<string, Time>, events: seq<Event>, id: string)
    requires !Doomed(next, Run(next, lastRun, events), id) && id !in GivenUp(next, lastRun, events)
    ensures !NeverLeavesRunning(next, lastRun, events, id)
  {
    var c := Run(next, lastRun, events);
    AtMostOneFlightPerTask(next, lastRun, events);
    if id in c.running {
      var k :| 0 <= k < |c.flights| && c.flights[k].task.taskId == id;
      WayOutLeaves(next, lastRun, events, k);
      assert NoRestart(WayOut(c.flights[k].phase, k), 0);
    } else {
      assert events + [] == events && NoRestart([], 0);
    }
  }

  /** Main result: a task can never be started again before a restart, because it never leaves the running
      set, exactly when since the last restart a pass started it from an entry whose schedule has no instant
      after that pass's clock or whose endpoint does not parse, or management was gone when its future was
      first polled; the future may have returned already or may still wait for that poll. Every other task
      is out of the running set or can get out of it. */
  lemma NeverLeavesRunningExactlyWhen(next: Next, lastRun: map<string, Time>, events: seq<Event>, id: string)
    ensures NeverLeavesRunning(next, lastRun, events, id)
            <==> TaskGaveUp(next, lastRun, events, id) || BoundToGiveUp(next, lastRun, events, id)
  {
    GivenUpExactly(next, lastRun, events, id);
    BoundIsDoomed(next, lastRun, events, id);
    if Doomed(next, Run(next, lastRun, events), id) || id in GivenUp(next, lastRun, events) {
      forall more: seq<Event> | NoRestart(more, 0)
        ensures id in Run(next, lastRun, events + more).running
      {
        DoomedStays(next, lastRun, events, more, id);
        AtMostOneFlightPerTask(next, lastRun, events + more);
      }
    } else {
      OthersCanLeave(next, lastRun, events, id);
    }
  }

  /** Such a run: a first start needs no instant, so a task whose schedule has run out is started once, and
      no later pass starts it again. */
  lemma ExhaustedScheduleGoesDown(f: string, id: string, endpointParses: bool, first: Time, later: Time)
    ensures var next: Next := (s, t) => None;
            var events := [
              ScheduleAdd(f, [Trigger(id, 0, endpointParses)]), Pass([Look(first, true)]),
              Begin(0), Pass([Look(later, true)])];
            && Run(next, map[], events) == Cron([Entry(id, f, 0, endpointParses)], {id}, [], map[], true)
            && DownForGood(next, map[], events, id)
  {
    var next: Next := (s, t) => None;
    var events := [
      ScheduleAdd(f, [Trigger(id, 0, endpointParses)]), Pass([Look(first, true)]), Begin(0), Pass([Look(later, true)])];
    var e := Entry(id, f, 0, endpointParses);
    assert events[..4] == events;
    assert forall k :: 0 <= k < 4 ==> events[..k + 1][..k] == events[..k];
    var c1 := Initial(map[]).(entries := [e]);
    assert EntriesOf(f, [Trigger(id, 0, endpointParses)]) + [] == [e];
    assert Run(next, map[], events[..1]) == c1;
    var c2 := c1.(running := {id}, flights := [Flight(e, first, Started)]);
    assert VisitAll(next, c1, [Look(first, true)], 1) == c2;
    assert Run(next, map[], events[..2]) == c2;
    var c3 := c2.(flights := []);
    assert Run(next, map[], events[..3]) == c3;
    assert VisitAll(next, c3, [Look(later, true)], 1) == c3;
    assert Run(next, map[], events) == c3;
    DownIsGivenUp(next, map[], events, id);
    GivenUpExactly(next, map[], events, id);
    DownForGoodExactlyWhen(next, map[], events, id);
  }
}
