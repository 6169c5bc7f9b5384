/**
 The cron task as a value: the listed entries, the set of ids that count as running, the
 futures in flight, the persistent table of last run times, and whether the management
 thread still listens.

 A schedule is whatever `next` says it is; times are integers.
 */
module CronModel {
  import opened Common

  type Time = int
  type ScheduleId = nat
  type Next = (ScheduleId, Time) -> Option<Time>

  /** A trigger as it is configured. A missing endpoint is the default one, which parses. */
  datatype Trigger = Trigger(id: string, schedule: ScheduleId, endpointParses: bool)

  datatype Entry = Entry(taskId: string, functionId: string, schedule: ScheduleId, endpointParses: bool)

  /** Started: not polled yet. Invoking: past its early returns. Finishing: the outcome is settled and only
      the last event is being sent. */
  datatype Phase = Started | Invoking | Finishing

  datatype Flight = Flight(task: Entry, startedAt: Time, phase: Phase)

  datatype Cron = Cron(
    entries: seq<Entry>,
    running: set<string>,
    flights: seq<Flight>,
    lastRun: map<string, Time>,
    managementUp: bool)

  /** What a pass sees when it comes to an entry: the clock, and whether the last run time can be read. */
  datatype Look = Look(now: Time, readable: bool)

  datatype Event =
    | ScheduleAdd(functionId: string, triggers: seq<Trigger>)
    | Pass(looks: seq<Look>)
      /** A started future is polled up to its invocation, or to one of the three returns before it. */
    | Begin(flight: nat)
      /** The invocation ended at `at`; `ok` without error, and `written` when the table took the time. */
    | Settle(flight: nat, at: Time, ok: bool, written: bool)
      /** The last event was sent; the future leaves the running set and ends. */
    | Finish(flight: nat)
      /** The management thread stops listening to cron events. */
    | ManagementDown
      /** The process is started again on the same database. */
    | Restart

  datatype Verdict = Skip | NotDue | Due

  /** What a pass decides about an entry that is not running. */
  function Judge(next: Next, lastRun: map<string, Time>, e: Entry, look: Look): Verdict {
    if !look.readable then Skip
    else if e.taskId !in lastRun then Due
    else
      match next(e.schedule, lastRun[e.taskId])
      case None => Skip
      case Some(t) => if t > look.now then NotDue else Due
  }

  predicate Starts(next: Next, c: Cron, e: Entry, look: Look) {
    e.taskId !in c.running && Judge(next, c.lastRun, e, look).Due?
  }

  function Visit(next: Next, c: Cron, e: Entry, look: Look): Cron {
    if Starts(next, c, e, look) then
      c.(running := c.running + {e.taskId}, flights := c.flights + [Flight(e, look.now, Started)])
    else c
  }

  /** The pass over the first `n` entries. */
  function VisitAll(next: Next, c: Cron, looks: seq<Look>, n: nat): Cron
    requires n <= |c.entries| && n <= |looks|
  {
    if n == 0 then c else Visit(next, VisitAll(next, c, looks, n - 1), c.entries[n - 1], looks[n - 1])
  }

  function EntriesOf(functionId: string, triggers: seq<Trigger>): seq<Entry> {
    seq(|triggers|, i requires 0 <= i < |triggers| =>
      Entry(triggers[i].id, functionId, triggers[i].schedule, triggers[i].endpointParses))
  }

  function Without(flights: seq<Flight>, i: nat): seq<Flight>
    requires i < |flights|
  {
    flights[..i] + flights[i + 1..]
  }

  predicate InPhase(c: Cron, i: nat, phase: Phase) {
    i < |c.flights| && c.flights[i].phase == phase
  }

  /** The future returns before it invokes anything: no next instant after its start, nobody to tell that it
      starts, or an endpoint that is no address. */
  predicate GivesUp(next: Next, managementUp: bool, f: Flight) {
    next(f.task.schedule, f.startedAt).None? || !managementUp || !f.task.endpointParses
  }

  function Initial(lastRun: map<string, Time>): Cron {
    Cron([], {}, [], lastRun, true)
  }

  /** An event that cannot happen in this state changes nothing. */
  function Step(next: Next, c: Cron, e: Event): Cron {
    match e
    case ScheduleAdd(f, triggers) => c.(entries := EntriesOf(f, triggers) + c.entries)
    case Pass(looks) => if |looks| == |c.entries| then VisitAll(next, c, looks, |looks|) else c
    case Begin(i) =>
      if !InPhase(c, i, Started) then c
      else if GivesUp(next, c.managementUp, c.flights[i]) then c.(flights := Without(c.flights, i))
      else c.(flights := c.flights[i := c.flights[i].(phase := Invoking)])
    case Settle(i, at, ok, written) =>
      if InPhase(c, i, Invoking) then
        c.(flights := c.flights[i := c.flights[i].(phase := Finishing)],
           lastRun := if ok && written then c.lastRun[c.flights[i].task.taskId := at] else c.lastRun)
      else c
    case Finish(i) =>
      if InPhase(c, i, Finishing) then
        c.(flights := Without(c.flights, i), running := c.running - {c.flights[i].task.taskId})
      else c
    case ManagementDown => c.(managementUp := false)
    case Restart => Initial(c.lastRun)
  }

  function Run(next: Next, lastRun: map<string, Time>, events: seq<Event>): Cron {
    if events == [] then Initial(lastRun)
    else Step(next, Run(next, lastRun, events[..|events| - 1]), events[|events| - 1])
  }
}
