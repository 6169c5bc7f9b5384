/** The cron task's own state and the methods that change it. */
module CronTask {
  import opened Common
  import opened CronModel

  class CronTaskState {
    const next: Next
    var tasks: seq<Entry>
    var runningTasks: set<string>
    var taskFutures: seq<Flight>
    var lastRunTimes: map<string, Time>
    var managementUp: bool

    ghost function Contents(): Cron
      reads this
    {
      Cron(tasks, runningTasks, taskFutures, lastRunTimes, managementUp)
    }

    constructor (next: Next, lastRun: map<string, Time>)
      ensures this.next == next && Contents() == Initial(lastRun)
    {
      this.next := next;
      tasks, runningTasks, taskFutures, lastRunTimes, managementUp := [], {}, [], lastRun, true;
    }

    /** The last recorded run, if any. */
    method GetPrevRunTime(taskId: string) returns (time: Option<Time>)
      ensures time == if taskId in lastRunTimes then Some(lastRunTimes[taskId]) else None
    {
      time := if taskId in lastRunTimes then Some(lastRunTimes[taskId]) else None;
    }

    method UpdateRunTime(taskId: string, runAt: Time)
      modifies this`lastRunTimes
      ensures lastRunTimes == old(lastRunTimes)[taskId := runAt]
    {
      lastRunTimes := lastRunTimes[taskId := runAt];
    }

    method ScheduleAdd(functionId: string, triggers: seq<Trigger>)
      modifies this`tasks
      ensures tasks == EntriesOf(functionId, triggers) + old(tasks)
    {
      var added: seq<Entry> := [];
      for i := 0 to |triggers|
        invariant added == EntriesOf(functionId, triggers)[..i]
      {
        added := added + [Entry(triggers[i].id, functionId, triggers[i].schedule, triggers[i].endpointParses)];
      }
      tasks := added + tasks;
    }

    /** One pass over the listed tasks. */
    method RunTasks(looks: seq<Look>)
      requires |looks| == |tasks|
      modifies this`runningTasks, this`taskFutures
      ensures Contents() == VisitAll(next, old(Contents()), looks, |looks|)
    {
      for i := 0 to |tasks|
        invariant Contents() == VisitAll(next, old(Contents()), looks, i)
      {
        var task, look := tasks[i], looks[i];
        if task.taskId in runningTasks {
          continue;
        }
        if !look.readable {
          continue;
        }
        var prev := GetPrevRunTime(task.taskId);
        if prev.Some? {
          var nextScheduledRun := next(task.schedule, prev.value);
          if nextScheduledRun.None? {
            continue;
          }
          if nextScheduledRun.value > look.now {
            continue;
          }
        }
        runningTasks := runningTasks + {task.taskId};
        taskFutures := taskFutures + [Flight(task, look.now, Started)];
      }
    }

    /** A started future up to its invocation; false when it returned before. */
    method Begin(i: nat) returns (invokes: bool)
      requires InPhase(Contents(), i, Started)
      modifies this`taskFutures
      ensures Contents() == Step(next, old(Contents()), CronModel.Begin(i))
      ensures invokes <==> !GivesUp(next, managementUp, old(taskFutures[i]))
    {
      var f := taskFutures[i];
      var nextRun := next(f.task.schedule, f.startedAt);
      if nextRun.None? {
        taskFutures := taskFutures[..i] + taskFutures[i + 1..];
        return false;
      }
      if !managementUp {
        taskFutures := taskFutures[..i] + taskFutures[i + 1..];
        return false;
      }
      if !f.task.endpointParses {
        taskFutures := taskFutures[..i] + taskFutures[i + 1..];
        return false;
      }
      taskFutures := taskFutures[i := f.(phase := Invoking)];
      return true;
    }

    method Settle(i: nat, at: Time, ok: bool, written: bool)
      requires InPhase(Contents(), i, Invoking)
      modifies this`taskFutures, this`lastRunTimes
      ensures Contents() == Step(next, old(Contents()), CronModel.Settle(i, at, ok, written))
    {
      var f := taskFutures[i];
      if ok && written {
        UpdateRunTime(f.task.taskId, at);
      }
      taskFutures := taskFutures[i := f.(phase := Finishing)];
    }

    method Finish(i: nat)
      requires InPhase(Contents(), i, Finishing)
      modifies this`taskFutures, this`runningTasks
      ensures Contents() == Step(next, old(Contents()), CronModel.Finish(i))
    {
      runningTasks := runningTasks - {taskFutures[i].task.taskId};
      taskFutures := taskFutures[..i] + taskFutures[i + 1..];
    }
  }

  /** One turn of the select loop; a restart keeps the database only. */
  method Handle(state: CronTaskState, e: Event) returns (after: CronTaskState)
    modifies state
    ensures after.next == state.next
    ensures after.Contents() == Step(state.next, old(state.Contents()), e)
    ensures after == state || fresh(after)
  {
    after := state;
    match e
    case ScheduleAdd(f, triggers) => state.ScheduleAdd(f, triggers);
    case Pass(looks) =>
      if |looks| == |state.tasks| {
        state.RunTasks(looks);
      }
    case Begin(i) =>
      if i < |state.taskFutures| && state.taskFutures[i].phase == Started {
        var _ := state.Begin(i);
      }
    case Settle(i, at, ok, written) =>
      if i < |state.taskFutures| && state.taskFutures[i].phase == Invoking {
        state.Settle(i, at, ok, written);
      }
    case Finish(i) =>
      if i < |state.taskFutures| && state.taskFutures[i].phase == Finishing {
        state.Finish(i);
      }
    case ManagementDown => state.managementUp := false;
    case Restart => after := new CronTaskState(state.next, state.lastRunTimes);
  }

  /** The loop over a whole run, every kind of event in any order. */
  method RunCronTask(next: Next, lastRun: map<string, Time>, events: seq<Event>) returns (state: CronTaskState)
    ensures state.next == next && state.Contents() == Run(next, lastRun, events)
  {
    state := new CronTaskState(next, lastRun);
    for i := 0 to |events|
      invariant fresh(state) && state.next == next
      invariant state.Contents() == Run(next, lastRun, events[..i])
    {
      state := Handle(state, events[i]);
      assert events[..i + 1][..i] == events[..i];
    }
    assert events[..|events|] == events;
  }
}
