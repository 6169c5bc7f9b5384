/** The worker's tables as fields, the message handlers that change them, and the source of ids. */
module RoutingWorker {
  import opened Common
  import opened RoutingModel
  import opened RoutingProperties

  class Worker {
    const lower: Lower
    var functionDeployments: map<DeploymentId, FunctionId>
    var functions: map<FunctionId, DeploymentId>
    var httpHosts: map<string, FunctionId>
    var httpDefault: Option<FunctionId>

    ghost function Contents(): Tables
      reads this
    {
      Tables(functionDeployments, functions, httpHosts, httpDefault)
    }

    constructor (lower: Lower)
      ensures this.lower == lower && Contents() == EMPTY
    {
      this.lower := lower;
      functionDeployments, functions, httpHosts, httpDefault := map[], map[], map[], None;
    }

    method RetainOtherHosts(f: FunctionId)
      modifies this`httpHosts
      ensures httpHosts == DropHosts(old(httpHosts), f)
    {
      httpHosts := map h | h in httpHosts && httpHosts[h] != f :: httpHosts[h];
    }

    method ExtendHosts(f: FunctionId, listeners: seq<Option<string>>)
      modifies this`httpHosts
      ensures httpHosts == AddHosts(lower, old(httpHosts), f, listeners)
    {
      for i := 0 to |listeners|
        invariant httpHosts == AddHosts(lower, old(httpHosts), f, listeners[..i])
      {
        assert listeners[..i + 1][..i] == listeners[..i];
        if listeners[i].Some? {
          httpHosts := httpHosts[lower(listeners[i].value) := f];
        }
      }
      assert listeners[..|listeners|] == listeners;
    }

    method AnyWithoutHost(listeners: seq<Option<string>>) returns (found: bool)
      ensures found == HasDefault(listeners)
    {
      for i := 0 to |listeners|
        invariant forall j :: 0 <= j < i ==> listeners[j].Some?
      {
        if listeners[i].None? {
          return true;
        }
      }
      return false;
    }

    method HandleMessage(m: Message)
      modifies this
      ensures Contents() == Step(lower, old(Contents()), m)
    {
      match m
      case Deploy(f, d, listeners, loaded) =>
        if !loaded {
          return;
        }
        functionDeployments := functionDeployments[d := f];
        functions := functions[f := d];
        RetainOtherHosts(f);
        ExtendHosts(f, listeners);
        var isDefault := AnyWithoutHost(listeners);
        if isDefault {
          httpDefault := Some(f);
        }
      case Remove(f) =>
        RetainOtherHosts(f);
        if httpDefault == Some(f) {
          httpDefault := None;
        }
        if f in functions {
          var deployment := functions[f];
          functions := functions - {f};
          functionDeployments := functionDeployments - {deployment};
        }
    }

    /** The lookup at the start of every request. */
    method RouteRequest(host: Option<string>) returns (deployment: Option<DeploymentId>)
      ensures deployment == Route(lower, Contents(), host)
    {
      var target := None;
      if host.Some? && lower(host.value) in httpHosts {
        target := Some(httpHosts[lower(host.value)]);
      }
      if target.None? {
        target := httpDefault;
      }
      if target.None? || target.value !in functions {
        return None;
      }
      var id := functions[target.value];
      return if id in functionDeployments then Some(id) else None;
    }
  }

  /** The worker after a whole log is the specification's tables. */
  method RunWorker(lower: Lower, log: seq<Message>) returns (worker: Worker)
    ensures worker.lower == lower && worker.Contents() == Run(lower, log)
  {
    worker := new Worker(lower);
    for i := 0 to |log|
      invariant fresh(worker) && worker.lower == lower && worker.Contents() == Run(lower, log[..i])
    {
      assert log[..i + 1][..i] == log[..i];
      worker.HandleMessage(log[i]);
    }
    assert log[..|log|] == log;
  }

  /** The lowest value the counter can have after the log. */
  function NextFree(log: seq<Message>, start: DeploymentId): DeploymentId {
    if log == [] then start
    else
      var n := |log| - 1;
      if log[n].Deploy? then log[n].deployment + 1 else NextFree(log[..n], start)
  }

  /** A log whose ids were drawn from the counter one after another, starting at `start`; draws for
      configurations that never reached this worker may lie in between. */
  ghost predicate DrawnInOrder(log: seq<Message>, start: DeploymentId) {
    log == [] ||
    (var n := |log| - 1;
     DrawnInOrder(log[..n], start) && (log[n].Deploy? ==> NextFree(log[..n], start) <= log[n].deployment))
  }

  lemma {:induction false} IdsBelowNextFree(log: seq<Message>, start: DeploymentId, i: nat)
    requires DrawnInOrder(log, start) && i < |log| && log[i].Deploy?
    ensures log[i].deployment < NextFree(log, start)
  {
    var n := |log| - 1;
    if i < n {
      IdsBelowNextFree(log[..n], start, i);
    }
  }

  lemma {:induction false} CounterGivesFreshIds(log: seq<Message>, start: DeploymentId)
    requires DrawnInOrder(log, start)
    ensures FreshDeployments(log)
  {
    if log != [] {
      var n := |log| - 1;
      CounterGivesFreshIds(log[..n], start);
      forall i, j | 0 <= i < j < |log| && log[i].Deploy? && log[j].Deploy?
        ensures log[i].deployment != log[j].deployment
      {
        if j == n {
          IdsBelowNextFree(log[..n], start, i);
        } else {
          assert log[..n][i] == log[i] && log[..n][j] == log[j];
        }
      }
    }
  }

  /** One change of the definitions. A configuration whose module does not compile draws an id and sends
      nothing. */
  datatype Change =
    | Apply(id: FunctionId, compiles: bool, listeners: seq<Option<string>>, loaded: bool)
    | Withdraw(id: FunctionId)

  lemma {:induction false} NextFreeRises(log: seq<Message>, start: DeploymentId)
    requires DrawnInOrder(log, start)
    ensures start <= NextFree(log, start)
  {
    if log != [] {
      NextFreeRises(log[..|log| - 1], start);
    }
  }

  /** Where deployment ids come from. */
  class DefinitionsMonitor {
    var deploymentIdCounter: DeploymentId

    constructor ()
      ensures deploymentIdCounter == 0
    {
      deploymentIdCounter := 0;
    }

    method NextDeploymentId() returns (id: DeploymentId)
      modifies this
      ensures id == old(deploymentIdCounter) && deploymentIdCounter == old(deploymentIdCounter) + 1
    {
      id := deploymentIdCounter;
      deploymentIdCounter := deploymentIdCounter + 1;
    }

    /** What the changes send to a worker; every deploy carries an id drawn from the counter. */
    method ApplyAll(changes: seq<Change>) returns (log: seq<Message>)
      modifies this
      ensures DrawnInOrder(log, old(deploymentIdCounter)) && FreshDeployments(log)
      ensures NextFree(log, old(deploymentIdCounter)) <= deploymentIdCounter
    {
      log := [];
      for k := 0 to |changes|
        invariant DrawnInOrder(log, old(deploymentIdCounter))
        invariant NextFree(log, old(deploymentIdCounter)) <= deploymentIdCounter
      {
        var message: Message;
        match changes[k] {
          case Apply(id, compiles, listeners, loaded) =>
            var deployment := NextDeploymentId();
            if !compiles {
              continue;
            }
            message := Deploy(id, deployment, listeners, loaded);
          case Withdraw(id) =>
            message := Remove(id);
        }
        assert (log + [message])[..|log|] == log;
        log := log + [message];
      }
      CounterGivesFreshIds(log, old(deploymentIdCounter));
    }
  }
}
