/** Host and Deployer as objects (runtime/host.go, runtime/deploy.go): their fields, methods
    and loops, proved against Hosts and Deployers. */
module HostObjects {
  import opened Numerals
  import opened Hosts
  import opened Deployers

  lemma {:induction false} WithoutAt(s: seq<Name>, name: Name, i: nat)
    requires i < |s| && s[i] == name && name !in s[..i]
    ensures Without(s, name) == s[..i] + s[i + 1..]
  {
    if i > 0 {
      assert name !in s[1..][..i - 1] by { assert s[1..][..i - 1] == s[1..i]; }
      assert s[0] in s[..i];
      WithoutAt(s[1..], name, i - 1);
      assert [s[0]] + (s[1..][..i - 1] + s[1..][i..]) == s[..i] + s[i + 1..];
    }
  }

  lemma {:induction false} WithoutAbsent(s: seq<Name>, name: Name)
    requires name !in s
    ensures Without(s, name) == s
  {
    if s != [] {
      WithoutAbsent(s[1..], name);
    }
  }

  class Host {
    var order: seq<Name>
    var comps: map<Name, Component>
    var running: set<Name>
    var started: bool
    var clock: nat
    var calls: seq<Call>

    function View(): HostState
      reads this
    {
      HostState(order, comps, running, started, clock, calls)
    }

    constructor ()
      ensures View() == HostState([], map[], {}, false, 0, [])
    {
      order, comps, running, started, clock, calls := [], map[], {}, false, 0, [];
    }

    method StartComponent(name: Name, o: Oracle) returns (ok: bool)
      modifies this
      ensures ok == o(old(clock)) && View() == StartOne(old(View()), name, o)
    {
      ok := o(clock);
      clock, calls := clock + 1, calls + [Start(name, ok)];
      if ok { running := running + {name}; }
    }

    method StopComponent(name: Name, o: Oracle) returns (ok: bool)
      modifies this
      ensures ok == o(old(clock)) && View() == StopOne(old(View()), name, o)
    {
      ok := o(clock);
      clock, calls := clock + 1, calls + [Stop(name, ok)];
      running := running - {name};
    }

    /** Stop what runs, last registered first. */
    method StopRunning(o: Oracle)
      modifies this
      ensures View() == StopDown(old(View()), |old(order)|, o)
    {
      var i := |order|;
      while i > 0
        invariant 0 <= i <= |order| && order == old(order)
        invariant StopDown(old(View()), |old(order)|, o) == StopDown(View(), i, o)
      {
        i := i - 1;
        var name := order[i];
        if name in running {
          var _ := StopComponent(name, o);
        }
      }
    }

    method StartAll(o: Oracle) returns (outcome: Outcome)
      modifies this
      ensures HostResult(outcome, View()) == StartSpec(old(View()), o)
    {
      if started { return Running; }
      for i := 0 to |order|
        invariant order == old(order)
        invariant StartSpec(old(View()), o) == StartUp(View(), i, o)
      {
        var ok := StartComponent(order[i], o);
        if !ok {
          StopRunning(o);
          return Failed;
        }
      }
      started := true;
      return Done;
    }

    method StopAll(o: Oracle)
      modifies this
      ensures View() == StopSpec(old(View()), o)
    {
      StopRunning(o);
      started := false;
    }

    method Remove(name: Name)
      modifies this
      ensures View() == Removed(old(View()), name)
    {
      comps := comps - {name};
      running := running - {name};
      for i := 0 to |order|
        invariant name !in order[..i]
        invariant View() == old(View()).(comps := old(comps) - {name}, running := old(running) - {name})
      {
        if order[i] == name {
          WithoutAt(order, name, i);
          order := order[..i] + order[i + 1..];
          return;
        }
      }
      WithoutAbsent(order, name);
    }

    method Deploy(c: Component, o: Oracle) returns (outcome: Outcome)
      modifies this
      ensures HostResult(outcome, View()) == DeploySpec(old(View()), c, o)
    {
      if c.name in comps { return Duplicate; }
      comps := comps[c.name := c];
      order := order + [c.name];
      if started {
        var ok := StartComponent(c.name, o);
        if !ok {
          Remove(c.name);
          return Failed;
        }
      }
      return Done;
    }

    method Undeploy(name: Name, o: Oracle) returns (outcome: Outcome)
      modifies this
      ensures HostResult(outcome, View()) == UndeploySpec(old(View()), name, o)
    {
      if name !in comps { return NotFound; }
      outcome := Done;
      if name in running {
        var ok := StopComponent(name, o);
        if !ok { outcome := Failed; }
      }
      Remove(name);
    }
  }

  class Deployer {
    const host: Host
    var applied: map<Path, Applied>

    function State(): DState
      reads this, host
    {
      DState(host.View(), applied)
    }

    constructor (h: Host)
      ensures host == h && applied == map[]
    {
      host, applied := h, map[];
    }

    method Teardown(path: Path, name: Name, o: Oracle) returns (ok: bool)
      modifies this`applied, host
      ensures DResult(ok, State()) == TeardownSpec(old(State()), path, name, o)
    {
      var u := host.Undeploy(name, o);
      if u.Failed? { return false; }
      applied := applied - {path};
      return true;
    }

    method ApplyOne(path: Path, raw: seq<byte>, parse: Parser, o: Oracle) returns (ok: bool)
      modifies this`applied, host
      ensures DResult(ok, State()) == ApplyOneSpec(old(State()), path, raw, parse, o)
    {
      var desc := parse(raw);
      if desc.None? || desc.value.name == "" { return false; }
      if !desc.value.enabled {
        if path in applied {
          ok := Teardown(path, applied[path].name, o);
          return;
        }
        return true;
      }
      var built := o(host.clock);
      host.clock := host.clock + 1;
      if !built { return false; }
      if path in applied {
        ok := Teardown(path, applied[path].name, o);
        if !ok { return; }
      }
      var p := host.Deploy(Component(desc.value.name, raw), o);
      if !p.Done? { return false; }
      applied := applied[path := Applied(desc.value.name, raw)];
      return true;
    }

    /** One reconciliation, in the orders w. */
    method Scan(files: Files, w: Walk, parse: Parser, o: Oracle) returns (ok: bool)
      requires Covers(w, State(), files, parse, o)
      modifies this`applied, host
      ensures State() == ScanSpec(old(State()), files, w, parse, o)
    {
      var visited := VisitFiles(files, w.paths, parse, o);
      var forgotten := ForgetGone(files, w.gone, o);
      ok := visited && forgotten;
    }

    method VisitFiles(files: Files, paths: seq<Path>, parse: Parser, o: Oracle) returns (ok: bool)
      requires forall p :: p in paths ==> p in files
      modifies this`applied, host
      ensures State() == VisitAll(old(State()), files, paths, parse, o)
    {
      ok := true;
      for i := 0 to |paths|
        invariant State() == VisitAll(old(State()), files, paths[..i], parse, o)
      {
        var path := paths[i];
        assert paths[..i + 1][..i] == paths[..i];
        assert path in files;
        if path in applied && applied[path].raw == files[path] { continue; }
        var one := ApplyOne(path, files[path], parse, o);
        ok := ok && one;
      }
      assert paths[..|paths|] == paths;
    }

    method ForgetGone(files: Files, gone: seq<Path>, o: Oracle) returns (ok: bool)
      modifies this`applied, host
      ensures State() == ForgetAll(old(State()), files, gone, o)
    {
      ok := true;
      for i := 0 to |gone|
        invariant State() == ForgetAll(old(State()), files, gone[..i], o)
      {
        var path := gone[i];
        assert gone[..i + 1][..i] == gone[..i];
        if path in files || path !in applied { continue; }
        var u := host.Undeploy(applied[path].name, o);
        if u.Failed? { ok := false; }
        applied := applied - {path};
      }
      assert gone[..|gone|] == gone;
    }
  }
}
