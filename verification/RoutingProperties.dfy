/** The tables as a function of the log of messages, and what the router finds in them. */
module RoutingProperties {
  import opened Common
  import opened RoutingModel

  // ---- What the log says ----

  predicate Deploys(m: Message, f: FunctionId) {
    m.Deploy? && m.loaded && m.id == f
  }

  predicate Removes(m: Message, f: FunctionId) {
    m.Remove? && m.id == f
  }

  predicate ListsHost(lower: Lower, m: Message, h: string) {
    m.Deploy? && m.loaded && Lists(lower, m.listeners, h)
  }

  predicate ListsDefault(m: Message) {
    m.Deploy? && m.loaded && HasDefault(m.listeners)
  }

  /** Message `i` deploys `f` on host `h` and nothing after it takes the host away. */
  ghost predicate ClaimsHost(lower: Lower, log: seq<Message>, i: nat, h: string, f: FunctionId) {
    && i < |log| && Deploys(log[i], f) && ListsHost(lower, log[i], h)
    && forall j :: i < j < |log| ==> !Deploys(log[j], f) && !Removes(log[j], f) && !ListsHost(lower, log[j], h)
  }

  ghost predicate ClaimsDefault(log: seq<Message>, i: nat, f: FunctionId) {
    && i < |log| && Deploys(log[i], f) && ListsDefault(log[i])
    && forall j :: i < j < |log| ==> !Removes(log[j], f) && !ListsDefault(log[j])
  }

  /** Message `i` is the last word on `f`, and it deploys it. */
  ghost predicate CurrentDeploy(log: seq<Message>, i: nat, f: FunctionId) {
    && i < |log| && Deploys(log[i], f)
    && forall j :: i < j < |log| ==> !Deploys(log[j], f) && !Removes(log[j], f)
  }

  lemma {:induction false} AddHostsFacts(
      lower: Lower, hosts: map<string, FunctionId>, f: FunctionId, listeners: seq<Option<string>>)
    ensures forall h :: h in AddHosts(lower, hosts, f, listeners) <==> h in hosts || Lists(lower, listeners, h)
    ensures forall h :: h in AddHosts(lower, hosts, f, listeners) ==>
              AddHosts(lower, hosts, f, listeners)[h] == if Lists(lower, listeners, h) then f else hosts[h]
  {
    if listeners != [] {
      var n := |listeners| - 1;
      AddHostsFacts(lower, hosts, f, listeners[..n]);
      forall h
        ensures Lists(lower, listeners, h) <==>
                Lists(lower, listeners[..n], h) || (listeners[n].Some? && lower(listeners[n].value) == h)
      {
        if Lists(lower, listeners[..n], h) {
          var i :| 0 <= i < n && listeners[..n][i].Some? && lower(listeners[..n][i].value) == h;
          assert listeners[i].Some? && lower(listeners[i].value) == h;
        }
        if Lists(lower, listeners, h) {
          var i :| 0 <= i < |listeners| && listeners[i].Some? && lower(listeners[i].value) == h;
          assert i < n ==> listeners[..n][i].Some? && lower(listeners[..n][i].value) == h;
        }
      }
    }
  }

  lemma ClaimsHostExtend(lower: Lower, log: seq<Message>, h: string, f: FunctionId)
    requires log != []
    ensures var n := |log| - 1;
            (exists i: nat :: ClaimsHost(lower, log, i, h, f)) <==>
            if Deploys(log[n], f) then ListsHost(lower, log[n], h)
            else !Removes(log[n], f) && !ListsHost(lower, log[n], h) &&
                 exists i: nat :: ClaimsHost(lower, log[..n], i, h, f)
  {
    var n := |log| - 1;
    if Deploys(log[n], f) && ListsHost(lower, log[n], h) {
      assert ClaimsHost(lower, log, n, h, f);
    }
    if i: nat :| ClaimsHost(lower, log, i, h, f) && i < n {
      assert ClaimsHost(lower, log[..n], i, h, f);
    }
    if !Deploys(log[n], f) && !Removes(log[n], f) && !ListsHost(lower, log[n], h) {
      if i: nat :| ClaimsHost(lower, log[..n], i, h, f) {
        assert log[..n][i] == log[i];
        forall j | i < j < |log|
          ensures !Deploys(log[j], f) && !Removes(log[j], f) && !ListsHost(lower, log[j], h)
        {
          assert j < n ==> log[..n][j] == log[j];
        }
        assert ClaimsHost(lower, log, i, h, f);
      }
    }
  }

  /** Main result: host `h` goes to `f` exactly when some deploy of `f` lists it and no later message
      deploys `f`, removes `f` or lists it for another function. */
  lemma {:induction false} HostTableFollowsLog(lower: Lower, log: seq<Message>, h: string, f: FunctionId)
    ensures var hosts := Run(lower, log).hosts;
            (h in hosts && hosts[h] == f) <==> exists i: nat :: ClaimsHost(lower, log, i, h, f)
  {
    if log != [] {
      var n := |log| - 1;
      HostTableFollowsLog(lower, log[..n], h, f);
      ClaimsHostExtend(lower, log, h, f);
      if log[n].Deploy? && log[n].loaded {
        AddHostsFacts(lower, DropHosts(Run(lower, log[..n]).hosts, log[n].id), log[n].id, log[n].listeners);
      }
    }
  }

  lemma ClaimsDefaultExtend(log: seq<Message>, f: FunctionId)
    requires log != []
    ensures var n := |log| - 1;
            (exists i: nat :: ClaimsDefault(log, i, f)) <==>
            if ListsDefault(log[n]) then Deploys(log[n], f)
            else !Removes(log[n], f) && exists i: nat :: ClaimsDefault(log[..n], i, f)
  {
    var n := |log| - 1;
    if Deploys(log[n], f) && ListsDefault(log[n]) {
      assert ClaimsDefault(log, n, f);
    }
    if i: nat :| ClaimsDefault(log, i, f) && i < n {
      assert ClaimsDefault(log[..n], i, f);
    }
    if !Removes(log[n], f) && !ListsDefault(log[n]) {
      if i: nat :| ClaimsDefault(log[..n], i, f) {
        assert log[..n][i] == log[i];
        forall j | i < j < |log|
          ensures !Removes(log[j], f) && !ListsDefault(log[j])
        {
          assert j < n ==> log[..n][j] == log[j];
        }
        assert ClaimsDefault(log, i, f);
      }
    }
  }

  /** Main result: the default is `f` exactly when the last deploy with a host-less listener was of `f`
      and `f` has not been removed since. A redeploy without such a listener does not clear it. */
  lemma {:induction false} DefaultFollowsLog(lower: Lower, log: seq<Message>, f: FunctionId)
    ensures Run(lower, log).fallback == Some(f) <==> exists i: nat :: ClaimsDefault(log, i, f)
  {
    if log != [] {
      DefaultFollowsLog(lower, log[..|log| - 1], f);
      ClaimsDefaultExtend(log, f);
    }
  }

  lemma CurrentDeployExtend(log: seq<Message>, f: FunctionId, i: nat)
    requires log != []
    ensures var n := |log| - 1;
            CurrentDeploy(log, i, f) <==>
            if Deploys(log[n], f) then i == n else !Removes(log[n], f) && CurrentDeploy(log[..n], i, f)
  {
  }

  lemma {:induction false} FunctionTableFollowsLog(lower: Lower, log: seq<Message>, f: FunctionId)
    ensures f in Run(lower, log).functions <==> exists i: nat :: CurrentDeploy(log, i, f)
    ensures forall i: nat :: CurrentDeploy(log, i, f) ==>
              f in Run(lower, log).functions && Run(lower, log).functions[f] == log[i].deployment
  {
    if log != [] {
      var n := |log| - 1;
      FunctionTableFollowsLog(lower, log[..n], f);
      forall i: nat
        ensures CurrentDeploy(log, i, f) <==>
                if Deploys(log[n], f) then i == n else !Removes(log[n], f) && CurrentDeploy(log[..n], i, f)
        ensures CurrentDeploy(log[..n], i, f) ==> log[..n][i] == log[i]
      {
        CurrentDeployExtend(log, f, i);
      }
      if Deploys(log[n], f) {
        assert CurrentDeploy(log, n, f);
      } else if !Removes(log[n], f) && f in Run(lower, log[..n]).functions {
        var i: nat :| CurrentDeploy(log[..n], i, f);
        assert CurrentDeploy(log, i, f);
      }
    }
  }

  // ---- The tables agree with each other ----

  ghost predicate FreshDeployments(log: seq<Message>) {
    forall i, j :: 0 <= i < j < |log| && log[i].Deploy? && log[j].Deploy? ==> log[i].deployment != log[j].deployment
  }

  ghost predicate Agree(t: Tables) {
    && (forall f :: f in t.functions ==> t.functions[f] in t.deployments && t.deployments[t.functions[f]] == f)
    && (forall h :: h in t.hosts ==> t.hosts[h] in t.functions)
    && (t.fallback.Some? ==> t.fallback.value in t.functions)
  }

  ghost predicate OnlyFrom(t: Tables, log: seq<Message>) {
    forall d :: d in t.deployments ==> exists i :: 0 <= i < |log| && log[i].Deploy? && log[i].deployment == d
  }

  lemma {:induction false} DeploymentsComeFromLog(lower: Lower, log: seq<Message>)
    ensures OnlyFrom(Run(lower, log), log)
  {
    if log != [] {
      var n := |log| - 1;
      DeploymentsComeFromLog(lower, log[..n]);
      var before, after := Run(lower, log[..n]), Run(lower, log);
      forall d | d in after.deployments
        ensures exists i :: 0 <= i < |log| && log[i].Deploy? && log[i].deployment == d
      {
        if d in before.deployments {
          var i :| 0 <= i < n && log[..n][i].Deploy? && log[..n][i].deployment == d;
          assert log[i].Deploy? && log[i].deployment == d;
        } else {
          assert log[n].Deploy? && log[n].deployment == d;
        }
      }
    }
  }

  lemma {:induction false} TablesAgree(lower: Lower, log: seq<Message>)
    requires FreshDeployments(log)
    ensures Agree(Run(lower, log))
  {
    if log != [] {
      var n := |log| - 1;
      TablesAgree(lower, log[..n]);
      var before, m := Run(lower, log[..n]), log[n];
      if m.Deploy? && m.loaded {
        AddHostsFacts(lower, DropHosts(before.hosts, m.id), m.id, m.listeners);
        DeploymentsComeFromLog(lower, log[..n]);
        assert m.deployment !in before.deployments;
      }
    }
  }

  /** Main result: with fresh deployment ids the router never follows a dangling entry. It finds a
      deployment exactly when there is a target, that deployment was made for the target function by its
      last deploy, and two functions never share one. */
  lemma RoutingNeverDangles(lower: Lower, log: seq<Message>, host: Option<string>)
    requires FreshDeployments(log)
    ensures var t := Run(lower, log);
            && (Route(lower, t, host).Some? <==> Target(lower, t, host).Some?)
            && (Target(lower, t, host).Some? ==>
                  exists i: nat :: CurrentDeploy(log, i, Target(lower, t, host).value) &&
                    Route(lower, t, host) == Some(log[i].deployment) &&
                    t.deployments[log[i].deployment] == Target(lower, t, host).value)
            && (forall f, g :: f in t.functions && g in t.functions && f != g ==> t.functions[f] != t.functions[g])
  {
    TablesAgree(lower, log);
    var t := Run(lower, log);
    if Target(lower, t, host).Some? {
      var f := Target(lower, t, host).value;
      FunctionTableFollowsLog(lower, log, f);
      var i: nat :| CurrentDeploy(log, i, f);
      assert t.functions[f] == log[i].deployment;
    }
  }

  /** Some function claims the host a request names. */
  ghost predicate HostClaimed(lower: Lower, log: seq<Message>, host: Option<string>) {
    host.Some? && exists f, i: nat :: ClaimsHost(lower, log, i, lower(host.value), f)
  }

  /** The log says that a request with this Host header, if any, is for `f`. */
  ghost predicate Serves(lower: Lower, log: seq<Message>, host: Option<string>, f: FunctionId) {
    if HostClaimed(lower, log, host) then exists i: nat :: ClaimsHost(lower, log, i, lower(host.value), f)
    else exists i: nat :: ClaimsDefault(log, i, f)
  }

  ghost predicate GoesTo(hosts: map<string, FunctionId>, h: string, f: FunctionId) {
    h in hosts && hosts[h] == f
  }

  lemma TargetFollowsLog(lower: Lower, log: seq<Message>, host: Option<string>, f: FunctionId)
    ensures Target(lower, Run(lower, log), host) == Some(f) <==> Serves(lower, log, host, f)
  {
    DefaultFollowsLog(lower, log, f);
    if host.Some? {
      var h := lower(host.value);
      forall g
        ensures GoesTo(Run(lower, log).hosts, h, g) <==> exists i: nat :: ClaimsHost(lower, log, i, h, g)
      {
        HostTableFollowsLog(lower, log, h, g);
      }
      assert GoesTo(Run(lower, log).hosts, h, f) <==> h in Run(lower, log).hosts && Run(lower, log).hosts[h] == f;
      if h in Run(lower, log).hosts {
        assert GoesTo(Run(lower, log).hosts, h, Run(lower, log).hosts[h]);
      }
      if g, i: nat :| ClaimsHost(lower, log, i, h, g) {
        assert GoesTo(Run(lower, log).hosts, h, g);
      }
    }
  }

  /** An invocation of `f` reaches the deployment of its last deploy, unless it was removed since. */
  lemma InvocationFollowsLog(lower: Lower, log: seq<Message>, f: FunctionId, d: DeploymentId)
    requires FreshDeployments(log)
    ensures Resolve(Run(lower, log), f) == Some(d)
            <==> exists i: nat :: CurrentDeploy(log, i, f) && log[i].deployment == d
    ensures Resolve(Run(lower, log), f).None? <==> forall i: nat :: !CurrentDeploy(log, i, f)
  {
    TablesAgree(lower, log);
    FunctionTableFollowsLog(lower, log, f);
  }

  /** Main result: after any log a request is answered by the latest deployment of the function that claims
      its host; when nobody claims it, or it names none, of the function that claims the default; and by
      "no function found" exactly when there is neither. */
  lemma RouteFollowsLog(lower: Lower, log: seq<Message>, host: Option<string>)
    requires FreshDeployments(log)
    ensures forall d :: Route(lower, Run(lower, log), host) == Some(d) <==>
              exists f, i: nat :: Serves(lower, log, host, f) && CurrentDeploy(log, i, f) && log[i].deployment == d
    ensures Route(lower, Run(lower, log), host) == None <==> forall f :: !Serves(lower, log, host, f)
  {
    var t := Run(lower, log);
    TablesAgree(lower, log);
    forall f
      ensures Target(lower, t, host) == Some(f) <==> Serves(lower, log, host, f)
    {
      TargetFollowsLog(lower, log, host, f);
    }
    if Target(lower, t, host).Some? {
      var f := Target(lower, t, host).value;
      FunctionTableFollowsLog(lower, log, f);
      assert f in t.functions;
    }
  }

  /** A function whose last word in the log is a removal is never a target and cannot be invoked. */
  lemma {:induction false} RemovedFunctionUnreachable(
      lower: Lower, log: seq<Message>, f: FunctionId, r: nat, host: Option<string>)
    requires FreshDeployments(log) && r < |log| && Removes(log[r], f)
    requires forall j :: r < j < |log| ==> !Deploys(log[j], f)
    ensures Target(lower, Run(lower, log), host) != Some(f)
    ensures Resolve(Run(lower, log), f) == None
  {
    FunctionTableFollowsLog(lower, log, f);
    forall i: nat
      ensures !CurrentDeploy(log, i, f)
    {
    }
    TablesAgree(lower, log);
  }

  /** Fresh ids are needed: when two functions get one id, removing either leaves the other dangling. */
  lemma SharedIdDangles(lower: Lower, d: DeploymentId)
    ensures var t := Run(lower, [Deploy("f", d, [None], true), Deploy("g", d, [], true), Remove("g")]);
            Target(lower, t, None) == Some("f") && Route(lower, t, None) == None
  {
    var log := [Deploy("f", d, [None], true), Deploy("g", d, [], true), Remove("g")];
    assert log[..2][..1] == log[..1];
    assert log[..1][..0] == [];
    assert HasDefault(log[0].listeners) by {
      assert log[0].listeners[0].None?;
    }
    assert !HasDefault(log[1].listeners);
    var t1 := Tables(map[d := "f"], map["f" := d], map[], Some("f"));
    assert DropHosts(map[], "f") == map[];
    assert AddHosts(lower, map[], "f", [None]) == map[];
    assert Run(lower, log[..1]) == t1;
    assert Run(lower, log[..2]) == Step(lower, t1, log[1]);
    assert Run(lower, log[..2]).functions == map["f" := d, "g" := d];
  }

  // ---- What is left behind ----

  /** Message `r` removes a function while deployment `d` is its latest one. */
  ghost predicate RemovedAsCurrent(log: seq<Message>, r: nat, d: DeploymentId) {
    && r < |log| && log[r].Remove?
    && exists i: nat :: CurrentDeploy(log[..r], i, log[r].id) && log[i].deployment == d
  }

  ghost predicate LoadedAs(log: seq<Message>, i: nat, d: DeploymentId) {
    i < |log| && log[i].Deploy? && log[i].loaded && log[i].deployment == d
  }

  ghost predicate WasLoaded(log: seq<Message>, d: DeploymentId) {
    exists i: nat :: LoadedAs(log, i, d)
  }

  ghost predicate WasRemovedAsCurrent(log: seq<Message>, d: DeploymentId) {
    exists r: nat :: RemovedAsCurrent(log, r, d)
  }

  lemma WasLoadedExtend(log: seq<Message>, d: DeploymentId)
    requires log != []
    ensures WasLoaded(log, d) <==> WasLoaded(log[..|log| - 1], d) || LoadedAs(log, |log| - 1, d)
  {
    var n := |log| - 1;
    if i: nat :| LoadedAs(log, i, d) && i < n {
      assert LoadedAs(log[..n], i, d);
    }
    if i: nat :| LoadedAs(log[..n], i, d) {
      assert LoadedAs(log, i, d);
    }
  }

  lemma RemovedPrefix(log: seq<Message>, r: nat, d: DeploymentId)
    requires r < |log| - 1
    ensures RemovedAsCurrent(log, r, d) <==> RemovedAsCurrent(log[..|log| - 1], r, d)
  {
    assert log[..|log| - 1][..r] == log[..r];
    assert forall i :: 0 <= i < r ==> log[..|log| - 1][i] == log[i];
  }

  lemma WasRemovedExtend(log: seq<Message>, d: DeploymentId)
    requires log != []
    ensures WasRemovedAsCurrent(log, d) <==>
            WasRemovedAsCurrent(log[..|log| - 1], d) || RemovedAsCurrent(log, |log| - 1, d)
  {
    var before := log[..|log| - 1];
    if r: nat :| RemovedAsCurrent(log, r, d) && r < |log| - 1 {
      RemovedPrefix(log, r, d);
    }
    if r: nat :| RemovedAsCurrent(before, r, d) {
      RemovedPrefix(log, r, d);
    }
  }

  lemma NotRemovedBeforeDeployed(log: seq<Message>, d: DeploymentId)
    requires FreshDeployments(log) && log != [] && LoadedAs(log, |log| - 1, d)
    ensures !WasRemovedAsCurrent(log[..|log| - 1], d)
  {
    var before := log[..|log| - 1];
    forall r: nat
      ensures !RemovedAsCurrent(before, r, d)
    {
      if r < |before| && before[r].Remove? {
        forall i: nat
          ensures !(CurrentDeploy(before[..r], i, before[r].id) && before[i].deployment == d)
        {
          assert i < r ==> before[..r][i] == log[i];
        }
      }
    }
  }

  /** What the last message does to the deployment its function has in the table. */
  lemma RemovedNow(lower: Lower, log: seq<Message>, d: DeploymentId)
    requires log != [] && log[|log| - 1].Remove?
    ensures var n := |log| - 1;
            var functions := Run(lower, log[..n]).functions;
            RemovedAsCurrent(log, n, d) <==> log[n].id in functions && functions[log[n].id] == d
  {
    var n := |log| - 1;
    FunctionTableFollowsLog(lower, log[..n], log[n].id);
    assert forall i :: 0 <= i < n ==> log[..n][i] == log[i];
  }

  /** A deployment is kept from its deploy until a removal that finds it current. A superseded one is
      kept for ever: no message can find it current again. */
  lemma {:induction false} KeptDeployments(lower: Lower, log: seq<Message>, d: DeploymentId)
    requires FreshDeployments(log)
    ensures d in Run(lower, log).deployments <==> WasLoaded(log, d) && !WasRemovedAsCurrent(log, d)
  {
    if log != [] {
      var n := |log| - 1;
      KeptDeployments(lower, log[..n], d);
      WasLoadedExtend(log, d);
      WasRemovedExtend(log, d);
      if log[n].Remove? {
        RemovedNow(lower, log, d);
      } else if LoadedAs(log, n, d) {
        NotRemovedBeforeDeployed(log, d);
      }
    }
  }

  /** Such a run: of two deployments of one function the removal takes the second, and the first stays. */
  lemma SupersededIsKept(lower: Lower, f: FunctionId, d: DeploymentId, e: DeploymentId)
    requires d != e
    ensures var log := [Deploy(f, d, [], true), Deploy(f, e, [], true), Remove(f)];
            Run(lower, log) == Tables(map[d := f], map[], map[], None)
  {
    var log := [Deploy(f, d, [], true), Deploy(f, e, [], true), Remove(f)];
    assert log[..2][..1] == log[..1];
    assert log[..1][..0] == [];
    assert forall g :: DropHosts(map[], g) == map[];
    assert Run(lower, log[..1]) == Tables(map[d := f], map[f := d], map[], None);
    assert Run(lower, log[..2]) == Tables(map[d := f, e := f], map[f := e], map[], None);
  }
}
