/** Which reconciler states converge (runtime/deploy.go): the consistent ones, kept by every
    run in which no replaced component fails to stop, and no others. */
module Reconciliation {
  import opened Hosts
  import opened Deployers
  import opened Convergence

  // ----- what every scan keeps -----

  lemma StopsHeldSplit(h: HostState, h1: HostState, h2: HostState)
    requires StopsHeld(h, h2) && h.calls <= h1.calls <= h2.calls
    ensures StopsHeld(h, h1) && StopsHeld(h1, h2)
  {
  }

  lemma VisitCalls(d: DState, files: Files, path: Path, parse: Parser, o: Oracle)
    requires path in files
    ensures d.host.calls <= Visit(d, files, path, parse, o).host.calls
  {
  }

  lemma {:induction false} VisitsCall(d: DState, files: Files, paths: seq<Path>, parse: Parser, o: Oracle)
    requires forall p :: p in paths ==> p in files
    ensures d.host.calls <= VisitAll(d, files, paths, parse, o).host.calls
  {
    if paths != [] {
      VisitsCall(d, files, paths[..|paths| - 1], parse, o);
      VisitCalls(VisitAll(d, files, paths[..|paths| - 1], parse, o), files, paths[|paths| - 1], parse, o);
    }
  }

  lemma VisitKeeps(d: DState, files: Files, path: Path, parse: Parser, rest: map<Name, Component>, o: Oracle)
    requires Owns(d, rest) && Kept(d, parse) && path in files
    requires StopsHeld(d.host, Visit(d, files, path, parse, o).host)
    ensures var d' := Visit(d, files, path, parse, o); Owns(d', rest) && Kept(d', parse)
  {
    var d' := Visit(d, files, path, parse, o);
    if d' != d {
      ApplyOneSteps(d, path, files[path], parse, rest, o);
      OthersKept(d, d', path);
    }
  }

  lemma {:induction false} VisitsKeep(d: DState, files: Files, paths: seq<Path>, parse: Parser, rest: map<Name, Component>, o: Oracle)
    requires Owns(d, rest) && Kept(d, parse) && forall p :: p in paths ==> p in files
    requires StopsHeld(d.host, VisitAll(d, files, paths, parse, o).host)
    ensures var d' := VisitAll(d, files, paths, parse, o); Owns(d', rest) && Kept(d', parse)
  {
    if paths != [] {
      var before, last := paths[..|paths| - 1], paths[|paths| - 1];
      var d1 := VisitAll(d, files, before, parse, o);
      VisitsCall(d, files, before, parse, o);
      VisitCalls(d1, files, last, parse, o);
      StopsHeldSplit(d.host, d1.host, VisitAll(d, files, paths, parse, o).host);
      VisitsKeep(d, files, before, parse, rest, o);
      VisitKeeps(d1, files, last, parse, rest, o);
    }
  }

  /** Any scan of any directory, whatever fails to parse, build or start, keeps ownership,
      as long as no component it replaces fails to stop. */
  lemma ScanKeeps(d: DState, files: Files, w: Walk, parse: Parser, rest: map<Name, Component>, o: Oracle)
    requires Owns(d, rest) && Kept(d, parse) && Covers(w, d, files, parse, o)
    requires StopsHeld(d.host, VisitAll(d, files, w.paths, parse, o).host)
    ensures var d' := ScanSpec(d, files, w, parse, o); Owns(d', rest) && Kept(d', parse)
  {
    VisitsKeep(d, files, w.paths, parse, rest, o);
    ForgetsOwn(VisitAll(d, files, w.paths, parse, o), files, w.gone, parse, rest, o);
  }

  // ----- runs -----

  /** Scans, and what the rest of the program does to the host. */
  datatype Event = Scan(files: Files, w: Walk) | Deploy(c: Component) | Undeploy(name: Name) | StartHost | StopHost

  /** A scan goes through what is there. */
  predicate Possible(d: DState, e: Event, parse: Parser, o: Oracle)
  {
    e.Scan? ==> Covers(e.w, d, e.files, parse, o)
  }

  /** No replaced component fails to stop, and nobody else undeploys an applied one. */
  ghost predicate Orderly(d: DState, e: Event, parse: Parser, o: Oracle)
  {
    && Possible(d, e, parse, o)
    && (e.Scan? ==> StopsHeld(d.host, VisitAll(d, e.files, e.w.paths, parse, o).host))
    && (e.Undeploy? ==> e.name !in Names(d.applied))
  }

  ghost function Happens(d: DState, e: Event, parse: Parser, o: Oracle): DState
    requires Possible(d, e, parse, o)
  {
    match e
    case Scan(files, w) => ScanSpec(d, files, w, parse, o)
    case Deploy(c) => d.(host := DeploySpec(d.host, c, o).h)
    case Undeploy(name) => d.(host := UndeploySpec(d.host, name, o).h)
    case StartHost => d.(host := StartSpec(d.host, o).h)
    case StopHost => d.(host := StopSpec(d.host, o))
  }

  lemma OtherDeployed(d: DState, rest: map<Name, Component>, c: Component, h: HostState)
    requires Owns(d, rest) && c.name !in d.host.comps && h.comps == d.host.comps[c.name := c]
    ensures Owns(d.(host := h), rest[c.name := c])
  {
    forall p | p in d.applied ensures Deployed(h.comps, d.applied[p]) && d.applied[p].name != c.name {
      assert Deployed(d.host.comps, d.applied[p]);
    }
  }

  lemma OtherUndeployed(d: DState, rest: map<Name, Component>, name: Name, h: HostState)
    requires Owns(d, rest) && name !in Names(d.applied) && h.comps == d.host.comps - {name}
    ensures Owns(d.(host := h), rest - {name})
  {
    forall p | p in d.applied ensures Deployed(h.comps, d.applied[p]) {
      assert Deployed(d.host.comps, d.applied[p]);
      assert d.applied[p].name in Names(d.applied);
    }
  }

  lemma EventKeeps(d: DState, e: Event, parse: Parser, o: Oracle)
    requires Kept(d, parse) && Consistent(d) && Orderly(d, e, parse, o)
    ensures Kept(Happens(d, e, parse, o), parse) && Consistent(Happens(d, e, parse, o))
  {
    var d', rest := Happens(d, e, parse, o), Foreign(d);
    match e
    case Scan(files, w) =>
      ScanKeeps(d, files, w, parse, rest, o);
      OwnsIsConsistent(d', rest);
    case Deploy(c) =>
      DeploySound(d.host, c, o);
      if DeploySpec(d.host, c, o).outcome.Done? {
        OtherDeployed(d, rest, c, d'.host);
        OwnsIsConsistent(d', rest[c.name := c]);
      } else {
        SameComps(d, rest, d'.host);
        OwnsIsConsistent(d', rest);
      }
    case Undeploy(name) =>
      UndeploySound(d.host, name, o);
      OtherUndeployed(d, rest, name, d'.host);
      OwnsIsConsistent(d', rest - {name});
    case StartHost =>
      if !d.host.started { StartStartsAllOrNone(d.host, o); }
      SameComps(d, rest, d'.host);
      OwnsIsConsistent(d', rest);
    case StopHost =>
      StopStopsAll(d.host, o);
      SameComps(d, rest, d'.host);
      OwnsIsConsistent(d', rest);
  }

  ghost predicate OrderlyRun(d: DState, es: seq<Event>, parse: Parser, o: Oracle)
    decreases |es|
  {
    es == [] || (Orderly(d, es[0], parse, o) && OrderlyRun(Happens(d, es[0], parse, o), es[1..], parse, o))
  }

  ghost function After(d: DState, es: seq<Event>, parse: Parser, o: Oracle): DState
    requires OrderlyRun(d, es, parse, o)
    decreases |es|
  {
    if es == [] then d else After(Happens(d, es[0], parse, o), es[1..], parse, o)
  }

  lemma {:induction false} RunKeeps(d: DState, es: seq<Event>, parse: Parser, o: Oracle)
    requires Kept(d, parse) && Consistent(d) && OrderlyRun(d, es, parse, o)
    ensures Kept(After(d, es, parse, o), parse) && Consistent(After(d, es, parse, o))
    decreases |es|
  {
    if es != [] {
      EventKeeps(d, es[0], parse, o);
      RunKeeps(Happens(d, es[0], parse, o), es[1..], parse, o);
    }
  }

  /** Every reachable state, of any host and any history in which replaced components
      stop, converges in two scans and then rests; on a started host everything deployed
      is then running. */
  lemma ReachableConverges(h: HostState, es: seq<Event>, past: Oracle, files: Files, w1: Walk, w2: Walk, w3: Walk, parse: Parser, o: Oracle)
    requires Sound(h) && OrderlyRun(DState(h, map[]), es, parse, past) && AllSucceed(o)
    requires var d := After(DState(h, map[]), es, parse, past);
             && Good(files, parse, Foreign(d)) && Covers(w1, d, files, parse, o)
             && var d1 := ScanSpec(d, files, w1, parse, o);
             && Covers(w2, d1, files, parse, o)
             && var d2 := ScanSpec(d1, files, w2, parse, o);
             Covers(w3, d2, files, parse, o)
    ensures var d := After(DState(h, map[]), es, parse, past);
            var d2 := ScanSpec(ScanSpec(d, files, w1, parse, o), files, w2, parse, o);
            && Converged(d2, files, parse, Foreign(d)) && Sound(d2.host) && ScanSpec(d2, files, w3, parse, o) == d2
  {
    var d0 := DState(h, map[]);
    assert Owns(d0, h.comps);
    OwnsIsConsistent(d0, h.comps);
    RunKeeps(d0, es, parse, past);
    var d := After(d0, es, parse, past);
    TwoScansConverge(d, files, w1, w2, parse, o);
    ScanRests(ScanSpec(ScanSpec(d, files, w1, parse, o), files, w2, parse, o), files, w3, parse, Foreign(d), o);
  }
}
