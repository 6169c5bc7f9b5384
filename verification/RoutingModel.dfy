/**
 The routing tables of a worker, the two messages that change them and the lookup the HTTP
 handler makes in them.

 Host names are compared after `lower`, the runtime's lower-casing of strings.
 */
module RoutingModel {
  import opened Common

  type FunctionId = string
  type DeploymentId = nat
  type Lower = string -> string

  /** `deployments` keeps, of a deployment, the function it was made for. */
  datatype Tables = Tables(
    deployments: map<DeploymentId, FunctionId>,
    functions: map<FunctionId, DeploymentId>,
    hosts: map<string, FunctionId>,
    fallback: Option<FunctionId>)

  /** A listener without a host is the default listener. `loaded` is false when the module could not be
      instantiated. */
  datatype Message =
    | Deploy(id: FunctionId, deployment: DeploymentId, listeners: seq<Option<string>>, loaded: bool)
    | Remove(id: FunctionId)

  const EMPTY: Tables := Tables(map[], map[], map[], None)

  function DropHosts(hosts: map<string, FunctionId>, f: FunctionId): map<string, FunctionId> {
    map h | h in hosts && hosts[h] != f :: hosts[h]
  }

  function AddHosts(
      lower: Lower, hosts: map<string, FunctionId>, f: FunctionId, listeners: seq<Option<string>>)
    : map<string, FunctionId>
  {
    if listeners == [] then hosts
    else
      var n := |listeners| - 1;
      var before := AddHosts(lower, hosts, f, listeners[..n]);
      if listeners[n].Some? then before[lower(listeners[n].value) := f] else before
  }

  predicate Lists(lower: Lower, listeners: seq<Option<string>>, h: string) {
    exists i :: 0 <= i < |listeners| && listeners[i].Some? && lower(listeners[i].value) == h
  }

  predicate HasDefault(listeners: seq<Option<string>>) {
    exists i :: 0 <= i < |listeners| && listeners[i].None?
  }

  function ApplyDeploy(
      lower: Lower, t: Tables, f: FunctionId, d: DeploymentId, listeners: seq<Option<string>>): Tables {
    Tables(t.deployments[d := f],
           t.functions[f := d],
           AddHosts(lower, DropHosts(t.hosts, f), f, listeners),
           if HasDefault(listeners) then Some(f) else t.fallback)
  }

  function ApplyRemove(t: Tables, f: FunctionId): Tables {
    Tables(if f in t.functions then t.deployments - {t.functions[f]} else t.deployments,
           t.functions - {f},
           DropHosts(t.hosts, f),
           if t.fallback == Some(f) then None else t.fallback)
  }

  function Step(lower: Lower, t: Tables, m: Message): Tables {
    match m
    case Deploy(f, d, listeners, loaded) => if loaded then ApplyDeploy(lower, t, f, d, listeners) else t
    case Remove(f) => ApplyRemove(t, f)
  }

  function Run(lower: Lower, log: seq<Message>): Tables {
    if log == [] then EMPTY else Step(lower, Run(lower, log[..|log| - 1]), log[|log| - 1])
  }

  /** The function a request is for: by its Host header, else the default one. */
  function Target(lower: Lower, t: Tables, host: Option<string>): Option<FunctionId> {
    if host.Some? && lower(host.value) in t.hosts then Some(t.hosts[lower(host.value)]) else t.fallback
  }

  /** The deployment an invocation of `f` reaches. */
  function Resolve(t: Tables, f: FunctionId): Option<DeploymentId> {
    if f in t.functions && t.functions[f] in t.deployments then Some(t.functions[f]) else None
  }

  /** The chained lookup: None is the answer "no function found". */
  function Route(lower: Lower, t: Tables, host: Option<string>): Option<DeploymentId> {
    match Target(lower, t, host)
    case None => None
    case Some(f) => Resolve(t, f)
  }
}
