/**
 How often a task can succeed.

 With a clock that never runs back, a schedule under which the task is listed has an instant
 between any two recorded successes, over any order of completions, failures, retries,
 duplicate entries and process restarts. Redeploys leave old listings in place, so a task may
 be listed under several schedules at once.
 */
module CronRate {
  import opened Common
  import opened CronModel
  import opened CronProperties

  /** The latest clock reading so far, `start` when there was none. */
  function Latest(start: Time, events: seq<Event>): Time {
    if events == [] then start
    else
      var e := events[|events| - 1];
      if e.Pass? && e.looks != [] then e.looks[|e.looks| - 1].now
      else if e.Settle? then e.at
      else Latest(start, events[..|events| - 1])
  }

  ghost predicate ReadsAfter(t: Time, e: Event) {
    && (e.Settle? ==> t <= e.at)
    && (e.Pass? ==> forall i :: 0 <= i < |e.looks| ==> t <= e.looks[i].now)
    && (e.Pass? ==> forall i, j :: 0 <= i < j < |e.looks| ==> e.looks[i].now <= e.looks[j].now)
  }

  ghost predicate ClockNeverRunsBack(start: Time, events: seq<Event>) {
    events == [] ||
    (var n := |events| - 1;
     ClockNeverRunsBack(start, events[..n]) && ReadsAfter(Latest(start, events[..n]), events[n]))
  }

  predicate Adds(triggers: seq<Trigger>, id: string, s: ScheduleId) {
    exists i :: 0 <= i < |triggers| && triggers[i].id == id && triggers[i].schedule == s
  }

  /** Since the last restart some trigger of the task was added with schedule `s`. */
  predicate Listed(events: seq<Event>, id: string, s: ScheduleId) {
    events != [] &&
    var n := |events| - 1;
    if events[n].Restart? then false
    else Listed(events[..n], id, s) || (events[n].ScheduleAdd? && Adds(events[n].triggers, id, s))
  }

  /** The invocation of a future ended without error, and the table took the time. */
  predicate Records(c: Cron, e: Event) {
    e.Settle? && InPhase(c, e.flight, Invoking) && e.ok && e.written
  }

  /** The run times ever stored for a task, the one found in the table at start first. */
  function History(next: Next, lastRun: map<string, Time>, events: seq<Event>, id: string): seq<Time> {
    if events == [] then (if id in lastRun then [lastRun[id]] else [])
    else
      var before, e := events[..|events| - 1], events[|events| - 1];
      var c := Run(next, lastRun, before);
      History(next, lastRun, before, id) +
      if Records(c, e) && c.flights[e.flight].task.taskId == id then [e.at] else []
  }

  /** A trigger of the deployment message at `n`, as an entry; no restart came since. */
  ghost predicate AddedAt(events: seq<Event>, n: nat, i: nat, e: Entry) {
    && n < |events| && events[n].ScheduleAdd? && i < |events[n].triggers| && NoRestart(events, n)
    && var t := events[n].triggers[i];
    e == Entry(t.id, events[n].functionId, t.schedule, t.endpointParses)
  }

  ghost predicate WasAdded(events: seq<Event>, e: Entry) {
    exists n: nat, i: nat :: AddedAt(events, n, i, e)
  }

  lemma WasAddedStep(events: seq<Event>, e: Entry)
    requires events != []
    ensures var last := events[|events| - 1];
            WasAdded(events, e) <==>
            && !last.Restart?
            && (WasAdded(events[..|events| - 1], e) ||
                (last.ScheduleAdd? && e in EntriesOf(last.functionId, last.triggers)))
  {
    var m := |events| - 1;
    var before, last := events[..m], events[m];
    assert forall n: nat :: n <= m ==> (NoRestart(events, n) <==> NoRestart(before, n) && !last.Restart?);
    if n: nat, i: nat :| AddedAt(events, n, i, e) {
      if n < m {
        assert AddedAt(before, n, i, e);
      } else {
        assert EntriesOf(last.functionId, last.triggers)[i] == e;
      }
    }
    if n: nat, i: nat :| AddedAt(before, n, i, e) && !last.Restart? {
      assert AddedAt(events, n, i, e);
    }
    if last.ScheduleAdd? && e in EntriesOf(last.functionId, last.triggers) {
      var i: nat :| i < |last.triggers| && EntriesOf(last.functionId, last.triggers)[i] == e;
      assert AddedAt(events, m, i, e);
    }
  }

  /** The entries are exactly the triggers added since the last restart, each with its function, schedule and
      endpoint. */
  lemma {:induction false} EntriesFollowLog(next: Next, lastRun: map<string, Time>, events: seq<Event>, e: Entry)
    ensures e in Run(next, lastRun, events).entries <==> WasAdded(events, e)
  {
    if events != [] {
      var n := |events| - 1;
      var c := Run(next, lastRun, events[..n]);
      EntriesFollowLog(next, lastRun, events[..n], e);
      WasAddedStep(events, e);
      if events[n].Pass? && |events[n].looks| == |c.entries| {
        PassKeeps(next, c, events[n].looks, |c.entries|);
      }
    }
  }

  /** The table holds the latest of them. */
  lemma {:induction false} TableHoldsLatest(next: Next, lastRun: map<string, Time>, events: seq<Event>, id: string)
    ensures var h, c := History(next, lastRun, events, id), Run(next, lastRun, events);
            (id in c.lastRun <==> h != []) && (h != [] ==> c.lastRun[id] == h[|h| - 1])
  {
    if events != [] {
      var n := |events| - 1;
      TableHoldsLatest(next, lastRun, events[..n], id);
      if events[n].Pass? && |events[n].looks| == |Run(next, lastRun, events[..n]).entries| {
        PassKeeps(next, Run(next, lastRun, events[..n]), events[n].looks, |events[n].looks|);
      }
    }
  }

  lemma {:induction false} FirstMayStart(next: Next, c: Cron, looks: seq<Look>, i: nat)
    requires |looks| == |c.entries| && i < |looks| && MayStart(next, c, c.entries[i], looks[i])
    ensures exists j: nat ::
              j <= i && FirstDue(next, c, looks, |looks|, j) && c.entries[j].taskId == c.entries[i].taskId
  {
    if j: nat :| j < i && c.entries[j].taskId == c.entries[i].taskId && MayStart(next, c, c.entries[j], looks[j]) {
      FirstMayStart(next, c, looks, j);
    } else {
      assert FirstDue(next, c, looks, |looks|, i);
    }
  }

  lemma PassStartsTask(next: Next, c: Cron, looks: seq<Look>, i: nat, stuck: set<string>)
    requires |looks| == |c.entries| && i < |looks| && MayStart(next, c, c.entries[i], looks[i]) && Exclusive(c, stuck)
    ensures var after, id := Step(next, c, Pass(looks)), c.entries[i].taskId;
            && id in after.running
            && exists f :: f in after.flights && f !in c.flights && f.task.taskId == id && f.phase.Started?
  {
    PassIsComplete(next, c, looks);
    FirstMayStart(next, c, looks, i);
    var j: nat :| j <= i && FirstDue(next, c, looks, |looks|, j) && c.entries[j].taskId == c.entries[i].taskId;
    var f := Flight(c.entries[j], looks[j].now, Started);
    assert f in Step(next, c, Pass(looks)).flights[|c.flights|..];
    assert f.task.taskId !in TasksOf(c.flights);
  }

  /** Main result: a task that was added and never ran is started by the next pass that can read its last run
      time, unless it counts as running already. */
  lemma NeverRunIsStarted(next: Next, lastRun: map<string, Time>, events: seq<Event>, looks: seq<Look>, e: Entry)
    requires WasAdded(events, e) && History(next, lastRun, events, e.taskId) == []
    requires e.taskId !in Run(next, lastRun, events).running
    requires |looks| == |Run(next, lastRun, events).entries|
    requires forall i :: 0 <= i < |looks| && Run(next, lastRun, events).entries[i] == e ==> looks[i].readable
    ensures var c, after := Run(next, lastRun, events), Run(next, lastRun, events + [Pass(looks)]);
            && e.taskId in after.running
            && exists f :: f in after.flights && f !in c.flights && f.task.taskId == e.taskId && f.phase.Started?
  {
    var c := Run(next, lastRun, events);
    EntriesFollowLog(next, lastRun, events, e);
    TableHoldsLatest(next, lastRun, events, e.taskId);
    RunOneMore(next, lastRun, events, Pass(looks));
    AtMostOneFlightPerTask(next, lastRun, events);
    var i: nat :| i < |looks| && c.entries[i] == e;
    PassStartsTask(next, c, looks, i, GivenUp(next, lastRun, events));
  }

  /** A future past its early returns has an instant to come. If it is one of the task's and may still
      succeed, it was started under a listed schedule that the last recorded success permitted. */
  predicate PacedFlight(next: Next, lastRun: map<string, Time>, events: seq<Event>, id: string, t: Time, f: Flight) {
    && f.startedAt <= t
    && (f.phase.Invoking? ==> next(f.task.schedule, f.startedAt).Some?)
    && (f.task.taskId == id && !f.phase.Finishing? ==>
          && Listed(events, id, f.task.schedule)
          && (id in lastRun ==> Permits(next, f.task.schedule, lastRun[id], f.startedAt)))
  }

  ghost predicate PacedFlights(
      next: Next, lastRun: map<string, Time>, events: seq<Event>, id: string, t: Time, flights: seq<Flight>) {
    forall f :: f in flights ==> PacedFlight(next, lastRun, events, id, t, f)
  }

  ghost predicate PacedEntries(entries: seq<Entry>, events: seq<Event>, id: string) {
    forall e :: e in entries && e.taskId == id ==> Listed(events, id, e.schedule)
  }

  /** The entries are those listed, and nothing can have replaced the success that permitted a future. */
  ghost predicate Paced(next: Next, c: Cron, events: seq<Event>, id: string, t: Time) {
    PacedEntries(c.entries, events, id) && PacedFlights(next, c.lastRun, events, id, t, c.flights)
  }

  lemma {:induction false} PassPaced(
      next: Next, c: Cron, looks: seq<Look>, n: nat, events: seq<Event>, id: string, t: Time)
    requires n <= |c.entries| && n <= |looks| && Paced(next, c, events, id, t)
    requires ReadsAfter(t, Pass(looks))
    ensures Paced(next, VisitAll(next, c, looks, n), events, id, if n == 0 then t else looks[n - 1].now)
  {
    if n > 0 {
      PassPaced(next, c, looks, n - 1, events, id, t);
      PassKeeps(next, c, looks, n - 1);
      assert c.entries[n - 1] in c.entries;
    }
  }

  /** Listings stay until the next restart. */
  lemma PacedLater(next: Next, c: Cron, events: seq<Event>, e: Event, id: string, t: Time)
    requires Paced(next, c, events, id, t) && !e.Restart?
    ensures Paced(next, c, events + [e], id, t)
  {
    assert (events + [e])[..|events|] == events;
    assert forall s :: Listed(events, id, s) ==> Listed(events + [e], id, s);
  }

  lemma ScheduleAddPaced(next: Next, c: Cron, events: seq<Event>, e: Event, id: string, t: Time)
    requires e.ScheduleAdd? && Paced(next, c, events, id, t)
    ensures Paced(next, Step(next, c, e), events + [e], id, t)
  {
    PacedLater(next, c, events, e, id, t);
    var added := EntriesOf(e.functionId, e.triggers);
    forall x | x in added && x.taskId == id
      ensures Listed(events + [e], id, x.schedule)
    {
      var i :| 0 <= i < |added| && added[i] == x;
      assert Adds(e.triggers, id, e.triggers[i].schedule);
      assert (events + [e])[|events|] == e;
    }
  }

  lemma WithoutIsPart(flights: seq<Flight>, i: nat)
    requires i < |flights|
    ensures forall f :: f in Without(flights, i) ==> f in flights
  {
  }

  lemma BeginPaced(next: Next, c: Cron, i: nat, events: seq<Event>, id: string, t: Time)
    requires Paced(next, c, events, id, t) && InPhase(c, i, Started)
    ensures Paced(next, Step(next, c, Begin(i)), events, id, t)
  {
    var f := c.flights[i];
    assert PacedFlight(next, c.lastRun, events, id, t, f);
    if GivesUp(next, c.managementUp, f) {
      WithoutIsPart(c.flights, i);
    } else {
      assert PacedFlight(next, c.lastRun, events, id, t, f.(phase := Invoking));
    }
  }

  /** A recorded success ends the claim of its own future; no other future is for that task. */
  lemma SettlePaced(next: Next, c: Cron, e: Event, events: seq<Event>, id: string, t: Time)
    requires e.Settle? && InPhase(c, e.flight, Invoking)
    requires Paced(next, c, events, id, t) && t <= e.at && DistinctTasks(c.flights)
    ensures Paced(next, Step(next, c, e), events, id, e.at)
  {
    var i, after := e.flight, Step(next, c, e);
    forall f | f in after.flights
      ensures PacedFlight(next, after.lastRun, events, id, e.at, f)
    {
      var j :| 0 <= j < |after.flights| && after.flights[j] == f;
      assert PacedFlight(next, c.lastRun, events, id, t, c.flights[j]);
      if j != i {
        assert c.flights[j].task.taskId != c.flights[i].task.taskId;
      }
    }
  }

  lemma StepPaced(next: Next, c: Cron, events: seq<Event>, e: Event, id: string, t: Time)
    requires Paced(next, c, events, id, t) && ReadsAfter(t, e) && DistinctTasks(c.flights)
    ensures Paced(next, Step(next, c, e), events + [e], id,
                  if e.Pass? && e.looks != [] then e.looks[|e.looks| - 1].now else if e.Settle? then e.at else t)
  {
    if !e.Restart? {
      PacedLater(next, c, events, e, id, t);
    }
    match e
    case ScheduleAdd(_, _) => ScheduleAddPaced(next, c, events, e, id, t);
    case Pass(looks) =>
      if |looks| == |c.entries| {
        PassPaced(next, c, looks, |looks|, events + [e], id, t);
      }
    case Begin(i) =>
      if InPhase(c, i, Started) {
        BeginPaced(next, c, i, events + [e], id, t);
      }
    case Settle(i, _, _, _) =>
      if InPhase(c, i, Invoking) {
        SettlePaced(next, c, e, events + [e], id, t);
      }
    case Finish(i) =>
      if InPhase(c, i, Finishing) {
        WithoutIsPart(c.flights, i);
      }
    case ManagementDown =>
    case Restart =>
  }

  lemma {:induction false} RunPaced(next: Next, lastRun: map<string, Time>, events: seq<Event>, id: string, start: Time)
    requires ClockNeverRunsBack(start, events)
    ensures Paced(next, Run(next, lastRun, events), events, id, Latest(start, events))
  {
    if events != [] {
      var n := |events| - 1;
      RunPaced(next, lastRun, events[..n], id, start);
      AtMostOneFlightPerTask(next, lastRun, events[..n]);
      StepPaced(next, Run(next, lastRun, events[..n]), events[..n], events[n], id, Latest(start, events[..n]));
      assert events[..n] + [events[n]] == events;
    }
  }

  /** Event `n` records the success after `k` others, of a future started at `b`: under a schedule by then
      listed for the task, which permitted `b` after the success before and has an instant after it. */
  ghost predicate PacedAt(
      next: Next, lastRun: map<string, Time>, events: seq<Event>, id: string, k: nat, n: nat, s: ScheduleId, b: Time) {
    && n < |events|
    && |History(next, lastRun, events[..n], id)| == k + 1 && k + 1 < |History(next, lastRun, events, id)|
    && Records(Run(next, lastRun, events[..n]), events[n])
    && History(next, lastRun, events, id)[k + 1] == events[n].at
    && Listed(events[..n], id, s)
    && Permits(next, s, History(next, lastRun, events, id)[k], b)
    && next(s, b).Some? && b <= events[n].at
  }

  lemma SuccessNow(
      next: Next, lastRun: map<string, Time>, events: seq<Event>, id: string, start: Time, k: nat, m: nat)
    requires ClockNeverRunsBack(start, events) && m == |events| - 1
    requires |History(next, lastRun, events[..m], id)| == k + 1 < |History(next, lastRun, events, id)|
    ensures exists s: ScheduleId, b: Time :: PacedAt(next, lastRun, events, id, k, m, s, b)
  {
    var c := Run(next, lastRun, events[..m]);
    TableHoldsLatest(next, lastRun, events[..m], id);
    RunPaced(next, lastRun, events[..m], id, start);
    var f := c.flights[events[m].flight];
    assert PacedFlight(next, c.lastRun, events[..m], id, Latest(start, events[..m]), f);
    assert PacedAt(next, lastRun, events, id, k, m, f.task.schedule, f.startedAt);
  }

  /** Main result: after one recorded success the next one is never earlier than the next instant of some
      schedule under which the task was listed when it was recorded. */
  lemma {:induction false} SuccessesArePaced(
      next: Next, lastRun: map<string, Time>, events: seq<Event>, id: string, start: Time, k: nat)
    requires ClockNeverRunsBack(start, events)
    requires k + 1 < |History(next, lastRun, events, id)|
    ensures exists n: nat, s: ScheduleId, b: Time :: PacedAt(next, lastRun, events, id, k, n, s, b)
  {
    var m := |events| - 1;
    var before := History(next, lastRun, events[..m], id);
    if k + 1 < |before| {
      SuccessesArePaced(next, lastRun, events[..m], id, start, k);
      var n: nat, s, b :| PacedAt(next, lastRun, events[..m], id, k, n, s, b);
      assert events[..m][..n] == events[..n];
      assert PacedAt(next, lastRun, events, id, k, n, s, b);
    } else {
      SuccessNow(next, lastRun, events, id, start, k, m);
    }
  }

  /** Every listing of the task carries one of the schedules in `allowed`. */
  ghost predicate OnlySchedules(events: seq<Event>, id: string, allowed: set<ScheduleId>) {
    forall n, s :: 0 <= n <= |events| && Listed(events[..n], id, s) ==> s in allowed
  }

  // ---- When one of several schedules is kept ----

  /** Wherever another listed schedule lets a future start that goes on to invoke, `s` would have too. */
  ghost predicate NeverLater(next: Next, allowed: set<ScheduleId>, s: ScheduleId) {
    forall u, a, b :: u in allowed && Permits(next, u, a, b) && next(u, b).Some? ==> Permits(next, s, a, b)
  }

  ghost predicate Follows(next: Next, lastRun: map<string, Time>, events: seq<Event>, id: string, s: ScheduleId) {
    var h := History(next, lastRun, events, id);
    forall k :: 0 <= k < |h| - 1 ==> Permits(next, s, h[k], h[k + 1])
  }

  /** Whatever happens to a task listed under these schedules only, its successes follow `s`. */
  ghost predicate AlwaysFollows(next: Next, allowed: set<ScheduleId>, s: ScheduleId) {
    forall lastRun, events, id, start ::
      ClockNeverRunsBack(start, events) && OnlySchedules(events, id, allowed) ==> Follows(next, lastRun, events, id, s)
  }

  lemma NeverLaterSuffices(
      next: Next, lastRun: map<string, Time>, events: seq<Event>, id: string, allowed: set<ScheduleId>, s: ScheduleId,
      start: Time)
    requires NeverLater(next, allowed, s)
    requires ClockNeverRunsBack(start, events) && OnlySchedules(events, id, allowed)
    ensures Follows(next, lastRun, events, id, s)
  {
    var h := History(next, lastRun, events, id);
    forall k | 0 <= k < |h| - 1
      ensures Permits(next, s, h[k], h[k + 1])
    {
      SuccessesArePaced(next, lastRun, events, id, start, k);
      var n: nat, u, b :| PacedAt(next, lastRun, events, id, k, n, u, b);
      assert u in allowed;
      assert Permits(next, s, h[k], b);
    }
  }

  function Redeploy(f: string, id: string, earlier: ScheduleId, later: ScheduleId, b: Time): seq<Event> {
    [ScheduleAdd(f, [Trigger(id, earlier, true)]), ScheduleAdd(f, [Trigger(id, later, true)]),
     Pass([Look(b, true), Look(b, true)]), Begin(0), Settle(0, b, true, true)]
  }

  lemma RedeployRuns(
      next: Next, f: string, id: string, earlier: ScheduleId, later: ScheduleId, a: Time, b: Time)
    requires Permits(next, earlier, a, b) && next(earlier, b).Some? && !Permits(next, later, a, b)
    ensures var e := Entry(id, f, earlier, true);
            Run(next, map[id := a], Redeploy(f, id, earlier, later, b)[..4]) ==
            Cron([Entry(id, f, later, true), e], {id}, [Flight(e, b, Invoking)], map[id := a], true)
  {
    var db := map[id := a];
    var looks := [Look(b, true), Look(b, true)];
    var events := Redeploy(f, id, earlier, later, b);
    var old0, new1 := Entry(id, f, earlier, true), Entry(id, f, later, true);
    assert forall k :: 0 <= k < 4 ==> events[..k + 1][..k] == events[..k];
    var c1 := Initial(db).(entries := [old0]);
    assert Run(next, db, events[..1]) == c1;
    var c2 := c1.(entries := [new1, old0]);
    assert EntriesOf(f, [Trigger(id, later, true)]) + [old0] == [new1, old0];
    assert Run(next, db, events[..2]) == c2;
    assert VisitAll(next, c2, looks, 1) == c2;
    var c3 := c2.(running := {id}, flights := [Flight(old0, b, Started)]);
    assert VisitAll(next, c2, looks, 2) == c3;
    assert Run(next, db, events[..3]) == c3;
  }

  /** It can be the schedule of an earlier deployment: its entry stays listed behind the new one, and starts
      the task although the new schedule does not permit it. */
  lemma OldScheduleStillRuns(
      next: Next, f: string, id: string, earlier: ScheduleId, later: ScheduleId, a: Time, b: Time)
    requires Permits(next, earlier, a, b) && next(earlier, b).Some? && !Permits(next, later, a, b)
    ensures History(next, map[id := a], Redeploy(f, id, earlier, later, b), id) == [a, b]
  {
    var events := Redeploy(f, id, earlier, later, b);
    RedeployRuns(next, f, id, earlier, later, a, b);
    assert forall k :: 0 <= k < 5 ==> events[..k + 1][..k] == events[..k];
    assert events[..5] == events;
    assert History(next, map[id := a], events[..1], id) == [a];
    assert History(next, map[id := a], events[..2], id) == [a];
    assert History(next, map[id := a], events[..3], id) == [a];
    assert History(next, map[id := a], events[..4], id) == [a];
  }

  lemma RedeployIsListed(f: string, id: string, earlier: ScheduleId, later: ScheduleId, b: Time)
    ensures forall allowed :: earlier in allowed && later in allowed ==>
              OnlySchedules(Redeploy(f, id, earlier, later, b), id, allowed)
    ensures ClockNeverRunsBack(b, Redeploy(f, id, earlier, later, b))
  {
    var events := Redeploy(f, id, earlier, later, b);
    assert forall k :: 0 <= k < 5 ==> events[..k + 1][..k] == events[..k];
    assert events[..5] == events && events[..0] == [];
    forall n, s | 0 <= n <= |events| && Listed(events[..n], id, s)
      ensures s == earlier || s == later
    {
      assert !Listed(events[..0], id, s);
      assert Listed(events[..1], id, s) ==> s == earlier;
      assert Listed(events[..2], id, s) ==> s == earlier || s == later;
      assert Listed(events[..3], id, s) <==> Listed(events[..2], id, s);
      assert Listed(events[..4], id, s) <==> Listed(events[..3], id, s);
      assert Listed(events[..5], id, s) <==> Listed(events[..4], id, s);
    }
    assert ClockNeverRunsBack(b, events[..0]) && Latest(b, events[..0]) == b;
    assert ClockNeverRunsBack(b, events[..1]) && Latest(b, events[..1]) == b;
    assert ClockNeverRunsBack(b, events[..2]) && Latest(b, events[..2]) == b;
    assert ClockNeverRunsBack(b, events[..3]) && Latest(b, events[..3]) == b;
    assert ClockNeverRunsBack(b, events[..4]) && Latest(b, events[..4]) == b;
  }

  /** Main result: of the schedules a task may be listed under, its successes follow `s` in every run exactly
      when none of the others lets a future start, with an instant to come, that `s` would not. */
  lemma FollowsExactlyWhen(next: Next, allowed: set<ScheduleId>, s: ScheduleId)
    requires s in allowed
    ensures AlwaysFollows(next, allowed, s) <==> NeverLater(next, allowed, s)
  {
    if NeverLater(next, allowed, s) {
      forall lastRun, events, id, start | ClockNeverRunsBack(start, events) && OnlySchedules(events, id, allowed)
        ensures Follows(next, lastRun, events, id, s)
      {
        NeverLaterSuffices(next, lastRun, events, id, allowed, s, start);
      }
    } else {
      var u, a, b :| u in allowed && Permits(next, u, a, b) && next(u, b).Some? && !Permits(next, s, a, b);
      var events := Redeploy("f", "t", u, s, b);
      OldScheduleStillRuns(next, "f", "t", u, s, a, b);
      RedeployIsListed("f", "t", u, s, b);
      var h := History(next, map["t" := a], events, "t");
      assert h[0] == a && h[0 + 1] == b;
      assert !Follows(next, map["t" := a], events, "t", s);
      assert OnlySchedules(events, "t", allowed) && ClockNeverRunsBack(b, events);
    }
  }

  /** Such a pair: a task that was due every time step is redeployed to be due every hundred. */
  lemma RedeployCanBeIgnored()
    ensures var next: Next := (s, t) => if s == 0 then Some(t + 1) else Some(t + 100);
            AlwaysFollows(next, {0, 1}, 0) && !AlwaysFollows(next, {0, 1}, 1)
  {
    var next: Next := (s, t) => if s == 0 then Some(t + 1) else Some(t + 100);
    FollowsExactlyWhen(next, {0, 1}, 0);
    FollowsExactlyWhen(next, {0, 1}, 1);
    assert Permits(next, 0, 5, 10) && !Permits(next, 1, 5, 10);
  }

  /** With one schedule the successes follow that schedule. */
  lemma OneSchedulePaces(
      next: Next, lastRun: map<string, Time>, events: seq<Event>, id: string, s: ScheduleId, start: Time, k: nat)
    requires ClockNeverRunsBack(start, events) && OnlySchedules(events, id, {s})
    requires k + 1 < |History(next, lastRun, events, id)|
    ensures Permits(next, s, History(next, lastRun, events, id)[k], History(next, lastRun, events, id)[k + 1])
  {
    NeverLaterSuffices(next, lastRun, events, id, {s}, s, start);
  }

  // ---- Counting instants ----

  /** `next` gives the least instant after a time. */
  ghost predicate IsSchedule(next: Next, s: ScheduleId) {
    && (forall t :: next(s, t).Some? ==> t < next(s, t).value)
    && (forall t, u :: next(s, t).Some? && t <= u < next(s, t).value ==> next(s, u) == next(s, t))
  }

  predicate IsInstant(next: Next, allowed: set<ScheduleId>, t: Time) {
    exists s :: s in allowed && next(s, t - 1) == Some(t)
  }

  /** At how many instants after `a`, up to and including `b`, one of the schedules fires. */
  function Instants(next: Next, allowed: set<ScheduleId>, a: Time, b: Time): nat
    decreases b - a
  {
    if b <= a then 0 else Instants(next, allowed, a, b - 1) + if IsInstant(next, allowed, b) then 1 else 0
  }

  lemma {:induction false} InstantsAdd(next: Next, allowed: set<ScheduleId>, a: Time, b: Time, c: Time)
    requires a <= b <= c
    ensures Instants(next, allowed, a, c) == Instants(next, allowed, a, b) + Instants(next, allowed, b, c)
    decreases c - b
  {
    if b < c {
      InstantsAdd(next, allowed, a, b, c - 1);
    }
  }

  lemma PermittedSpansInstant(next: Next, allowed: set<ScheduleId>, s: ScheduleId, a: Time, b: Time)
    requires s in allowed && IsSchedule(next, s) && Permits(next, s, a, b)
    ensures a < b && Instants(next, allowed, a, b) >= 1
  {
    var n := next(s, a).value;
    InstantsAdd(next, allowed, a, n, b);
    assert next(s, n - 1) == Some(n);
    assert IsInstant(next, allowed, n);
  }

  ghost predicate PermittedBySome(next: Next, allowed: set<ScheduleId>, a: Time, b: Time) {
    exists s :: s in allowed && Permits(next, s, a, b)
  }

  ghost predicate StepwisePermitted(next: Next, allowed: set<ScheduleId>, h: seq<Time>) {
    forall k :: 0 <= k < |h| - 1 ==> PermittedBySome(next, allowed, h[k], h[k + 1])
  }

  lemma {:induction false} PacedSequence(next: Next, allowed: set<ScheduleId>, h: seq<Time>)
    requires (forall s :: s in allowed ==> IsSchedule(next, s)) && h != []
    requires StepwisePermitted(next, allowed, h)
    ensures h[0] <= h[|h| - 1] && Instants(next, allowed, h[0], h[|h| - 1]) >= |h| - 1
  {
    var n := |h| - 1;
    if n > 0 {
      forall k | 0 <= k < n - 1
        ensures PermittedBySome(next, allowed, h[..n][k], h[..n][k + 1])
      {
        assert PermittedBySome(next, allowed, h[k], h[k + 1]);
      }
      PacedSequence(next, allowed, h[..n]);
      assert PermittedBySome(next, allowed, h[n - 1], h[n - 1 + 1]);
      var s :| s in allowed && Permits(next, s, h[n - 1], h[n]);
      PermittedSpansInstant(next, allowed, s, h[n - 1], h[n]);
      InstantsAdd(next, allowed, h[0], h[n - 1], h[n]);
    }
  }

  /** Main result: n recorded successes need, between the first and the last, n - 1 instants at which one of
      the task's schedules fires. */
  lemma SuccessesBoundedByInstants(
      next: Next, lastRun: map<string, Time>, events: seq<Event>, id: string, allowed: set<ScheduleId>, start: Time)
    requires ClockNeverRunsBack(start, events) && OnlySchedules(events, id, allowed)
    requires forall s :: s in allowed ==> IsSchedule(next, s)
    requires History(next, lastRun, events, id) != []
    ensures var h := History(next, lastRun, events, id);
            |h| <= 1 + Instants(next, allowed, h[0], h[|h| - 1])
  {
    var h := History(next, lastRun, events, id);
    forall k | 0 <= k < |h| - 1
      ensures PermittedBySome(next, allowed, h[k], h[k + 1])
    {
      SuccessesArePaced(next, lastRun, events, id, start, k);
      var n: nat, s, b :| PacedAt(next, lastRun, events, id, k, n, s, b);
      assert s in allowed;
    }
    PacedSequence(next, allowed, h);
  }
}
