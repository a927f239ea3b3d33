/** Any history of the reconciler (runtime/deploy.go), failed stops and interfering
    undeployments included: which of the states it reaches still converge. */
module Histories {
  import opened Wrappers
  import opened Numerals
  import opened Hosts
  import opened Deployers
  import opened Convergence
  import opened Reconciliation
  import opened Stranding

  lemma TeardownKept(d: DState, path: Path, name: Name, parse: Parser, o: Oracle)
    requires Kept(d, parse)
    ensures Kept(TeardownSpec(d, path, name, o).d, parse)
  {
    UndeploySound(d.host, name, o);
  }

  lemma DeployNewKept(d: DState, path: Path, a: Applied, parse: Parser, o: Oracle)
    requires Kept(d, parse) && parse(a.raw) == Some(Descriptor(a.name, true)) && a.name != ""
    ensures Kept(DeployNew(d, path, a, o).d, parse)
  {
    DeploySound(d.host, Component(a.name, a.raw), o);
  }

  lemma ApplyOneKept(d: DState, path: Path, raw: seq<byte>, parse: Parser, o: Oracle)
    requires Kept(d, parse)
    ensures Kept(ApplyOneSpec(d, path, raw, parse, o).d, parse)
  {
    var desc := parse(raw);
    if desc.Some? && desc.value.name != "" {
      var built := Built(d);
      if path in d.applied {
        TeardownKept(d, path, d.applied[path].name, parse, o);
        TeardownKept(built, path, d.applied[path].name, parse, o);
      }
      if desc.value.enabled {
        var t := if path in d.applied then TeardownSpec(built, path, d.applied[path].name, o) else DResult(true, built);
        DeployNewKept(t.d, path, Applied(desc.value.name, raw), parse, o);
      }
    }
  }

  lemma {:induction false} VisitsKept(d: DState, files: Files, paths: seq<Path>, parse: Parser, o: Oracle)
    requires Kept(d, parse) && forall p :: p in paths ==> p in files
    ensures Kept(VisitAll(d, files, paths, parse, o), parse)
  {
    if paths != [] {
      var before, last := paths[..|paths| - 1], paths[|paths| - 1];
      VisitsKept(d, files, before, parse, o);
      ApplyOneKept(VisitAll(d, files, before, parse, o), last, files[last], parse, o);
    }
  }

  lemma {:induction false} ForgetsKept(d: DState, files: Files, gone: seq<Path>, parse: Parser, o: Oracle)
    requires Kept(d, parse)
    ensures Kept(ForgetAll(d, files, gone, o), parse)
  {
    if gone != [] {
      var before, last := gone[..|gone| - 1], gone[|gone| - 1];
      ForgetsKept(d, files, before, parse, o);
      var d1 := ForgetAll(d, files, before, o);
      if last in d1.applied { UndeploySound(d1.host, d1.applied[last].name, o); }
    }
  }

  lemma EventKept(d: DState, e: Event, parse: Parser, o: Oracle)
    requires Kept(d, parse) && Possible(d, e, parse, o)
    ensures Kept(Happens(d, e, parse, o), parse)
  {
    match e
    case Scan(files, w) =>
      VisitsKept(d, files, w.paths, parse, o);
      ForgetsKept(VisitAll(d, files, w.paths, parse, o), files, w.gone, parse, o);
    case Deploy(c) => DeploySound(d.host, c, o);
    case Undeploy(name) => UndeploySound(d.host, name, o);
    case StartHost => if !d.host.started { StartStartsAllOrNone(d.host, o); }
    case StopHost => StopStopsAll(d.host, o);
  }

  // ----- any history -----

  ghost predicate PossibleRun(d: DState, es: seq<Event>, parse: Parser, o: Oracle)
    decreases |es|
  {
    es == [] || (Possible(d, es[0], parse, o) && PossibleRun(Happens(d, es[0], parse, o), es[1..], parse, o))
  }

  ghost function AfterAll(d: DState, es: seq<Event>, parse: Parser, o: Oracle): DState
    requires PossibleRun(d, es, parse, o)
    decreases |es|
  {
    if es == [] then d else AfterAll(Happens(d, es[0], parse, o), es[1..], parse, o)
  }

  lemma {:induction false} HistoryKept(d: DState, es: seq<Event>, parse: Parser, o: Oracle)
    requires Kept(d, parse) && PossibleRun(d, es, parse, o)
    ensures Kept(AfterAll(d, es, parse, o), parse)
    decreases |es|
  {
    if es != [] {
      EventKept(d, es[0], parse, o);
      HistoryKept(Happens(d, es[0], parse, o), es[1..], parse, o);
    }
  }

  /** In whatever state a history has left the reconciler, it brings the host to every good
      directory in two scans exactly when every applied entry still has its component and
      no two share a name; otherwise there is one no number of scans brings it to. */
  lemma ReachedConvergesIff(h: HostState, es: seq<Event>, past: Oracle, parse: Parser, o: Oracle)
    requires Sound(h) && PossibleRun(DState(h, map[]), es, parse, past) && AllSucceed(o)
    ensures var d := AfterAll(DState(h, map[]), es, parse, past);
            && (Consistent(d) <==> forall files :: Good(files, parse, Foreign(d)) ==> Settles(d, files, parse, o))
            && (Consistent(d) <==> forall files :: Good(files, parse, Foreign(d)) ==> !NeverSettles(d, files, parse, o))
  {
    HistoryKept(DState(h, map[]), es, parse, past);
    var d := AfterAll(DState(h, map[]), es, parse, past);
    ConvergesIffConsistent(d, parse, o);
    if Consistent(d) {
      forall files | Good(files, parse, Foreign(d)) ensures !NeverSettles(d, files, parse, o) {
        SettlesAtLast(d, files, parse, o);
      }
    } else {
      var files := StrandedNeverSettles(d, parse, o);
    }
  }

  lemma SettlesAtLast(d: DState, files: Files, parse: Parser, o: Oracle)
    requires Settles(d, files, parse, o)
    ensures !NeverSettles(d, files, parse, o)
  {
    var w1 := SomeWalk(d, files, parse, o);
    var w2 := SomeWalk(ScanSpec(d, files, w1, parse, o), files, parse, o);
    TwoWalks(d, files, w1, w2, parse, o);
  }
}
