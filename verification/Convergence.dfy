/** The reconciler converges (runtime/deploy.go, runtime/host.go): exactly from the states
    no failed stop has left behind, two scans bring the host to the directory and every
    later scan does nothing. */
module Convergence {
  import opened Numerals
  import opened Hosts
  import opened Deployers

  ghost predicate AllSucceed(o: Oracle) { forall k :: o(k) }

  // ----- the goal -----

  function Desired(files: Files, parse: Parser): map<Path, Applied>
  {
    map p | p in files && parse(files[p]).Some? && parse(files[p]).value.enabled ::
      Applied(parse(files[p]).value.name, files[p])
  }

  /** Descriptors that parse, are named, and whose enabled names are distinct and free. */
  ghost predicate Good(files: Files, parse: Parser, rest: map<Name, Component>)
  {
    && (forall p :: p in files ==> parse(files[p]).Some? && parse(files[p]).value.name != "")
    && var want := Desired(files, parse);
    && (forall p :: p in want ==> want[p].name !in rest)
    && (forall p, q :: p in want && q in want && want[p].name == want[q].name ==> p == q)
  }

  /** The applied entries and the host are exactly the enabled descriptors, beside the
      components of others. */
  ghost predicate Converged(d: DState, files: Files, parse: Parser, rest: map<Name, Component>)
  {
    d.applied == Desired(files, parse) && Owns(d, rest)
  }

  // ----- one file -----

  lemma TeardownOwns(d: DState, rest: map<Name, Component>, path: Path, o: Oracle)
    requires Owns(d, rest) && Sound(d.host) && path in d.applied
    requires TeardownSpec(d, path, d.applied[path].name, o).ok
    ensures var d' := TeardownSpec(d, path, d.applied[path].name, o).d;
            Owns(d', rest) && Sound(d'.host) && d'.applied == d.applied - {path}
  {
    UndeploySound(d.host, d.applied[path].name, o);
    TornDown(d, rest, path, UndeploySpec(d.host, d.applied[path].name, o).h);
  }

  lemma DeployNewOwns(d: DState, rest: map<Name, Component>, path: Path, a: Applied, o: Oracle)
    requires Owns(d, rest) && Sound(d.host) && path !in d.applied
    ensures var r := DeployNew(d, path, a, o);
            && Owns(r.d, rest) && Sound(r.d.host)
            && r.d.applied == (if r.ok then d.applied[path := a] else d.applied)
            && (AllSucceed(o) ==> (r.ok <==> a.name !in d.host.comps))
  {
    var c := Component(a.name, a.raw);
    DeploySound(d.host, c, o);
    var h := DeploySpec(d.host, c, o).h;
    if DeploySpec(d.host, c, o).outcome.Done? {
      PutUp(d, rest, path, a, h);
    } else {
      SameComps(d, rest, h);
    }
  }

  /** No stop failed among the calls made since h. */
  ghost predicate StopsHeld(h: HostState, h': HostState)
  {
    && |h.calls| <= |h'.calls|
    && forall i :: |h.calls| <= i < |h'.calls| && h'.calls[i].Stop? ==> h'.calls[i].ok
  }

  lemma TeardownHeld(d: DState, path: Path, name: Name, o: Oracle)
    requires StopsHeld(d.host, TeardownSpec(d, path, name, o).d.host)
    ensures TeardownSpec(d, path, name, o).ok
  {
    assert StopOne(d.host, name, o).calls[|d.host.calls|] == Stop(name, o(d.host.clock));
  }

  lemma SucceedingHolds(d: DState, path: Path, name: Name, o: Oracle)
    requires AllSucceed(o)
    ensures TeardownSpec(d, path, name, o).ok
  {
  }

  function Built(d: DState): DState { d.(host := d.host.(clock := d.host.clock + 1)) }

  /** Ownership is kept, other files are left alone, and the file's own entry is dropped,
      replaced by what the file says, or as it was. */
  ghost predicate Steps(d: DState, d': DState, path: Path, raw: seq<byte>, parse: Parser, rest: map<Name, Component>)
  {
    && Owns(d', rest) && Sound(d'.host) && d'.applied - {path} == d.applied - {path}
    && (path in d'.applied ==>
          || (path in d.applied && d'.applied[path] == d.applied[path])
          || (parse(raw).Some? && parse(raw).value.enabled && parse(raw).value.name != ""
              && d'.applied[path] == Applied(parse(raw).value.name, raw)))
  }

  lemma Overwritten(m: map<Path, Applied>, m1: map<Path, Applied>, path: Path, a: Applied)
    requires m1 == m - {path}
    ensures m1[path := a] - {path} == m - {path} && m1 - {path} == m - {path}
  {
  }

  /** Deploying what the file says, once its old entry is gone. */
  lemma DeploySteps(d: DState, d1: DState, path: Path, raw: seq<byte>, parse: Parser, rest: map<Name, Component>, o: Oracle)
    requires parse(raw).Some? && parse(raw).value.enabled && parse(raw).value.name != ""
    requires Owns(d1, rest) && Sound(d1.host) && d1.applied == d.applied - {path}
    ensures var a := Applied(parse(raw).value.name, raw); var d' := DeployNew(d1, path, a, o).d;
            && Steps(d, d', path, raw, parse, rest) && (path in d'.applied ==> d'.applied[path] == a)
            && (AllSucceed(o) ==> (path in d'.applied <==> a.name !in d1.host.comps))
  {
    var a := Applied(parse(raw).value.name, raw);
    DeployNewOwns(d1, rest, path, a, o);
    Overwritten(d.applied, d1.applied, path, a);
  }

  lemma ReplaceSteps(d: DState, path: Path, raw: seq<byte>, parse: Parser, rest: map<Name, Component>, o: Oracle)
    requires Owns(d, rest) && Sound(d.host) && path in d.applied && TeardownSpec(d, path, d.applied[path].name, o).ok
    requires parse(raw).Some? && parse(raw).value.enabled && parse(raw).value.name != ""
    ensures var a := Applied(parse(raw).value.name, raw); var d1 := TeardownSpec(d, path, d.applied[path].name, o).d;
            var d' := DeployNew(d1, path, a, o).d;
            Steps(d, d', path, raw, parse, rest) && (path in d'.applied ==> d'.applied[path] == a)
  {
    TeardownOwns(d, rest, path, o);
    DeploySteps(d, TeardownSpec(d, path, d.applied[path].name, o).d, path, raw, parse, rest, o);
  }

  lemma DisableSteps(d: DState, path: Path, raw: seq<byte>, parse: Parser, rest: map<Name, Component>, o: Oracle)
    requires Owns(d, rest) && Sound(d.host) && path in d.applied
    requires StopsHeld(d.host, TeardownSpec(d, path, d.applied[path].name, o).d.host) || AllSucceed(o)
    ensures Steps(d, TeardownSpec(d, path, d.applied[path].name, o).d, path, raw, parse, rest)
    ensures path !in TeardownSpec(d, path, d.applied[path].name, o).d.applied
  {
    if AllSucceed(o) { SucceedingHolds(d, path, d.applied[path].name, o); }
    else { TeardownHeld(d, path, d.applied[path].name, o); }
    TeardownOwns(d, rest, path, o);
  }

  lemma EnableSteps(d: DState, path: Path, raw: seq<byte>, parse: Parser, rest: map<Name, Component>, o: Oracle)
    requires Owns(d, rest) && Sound(d.host)
    requires parse(raw).Some? && parse(raw).value.enabled && parse(raw).value.name != "" && o(d.host.clock)
    requires StopsHeld(d.host, ApplyOneSpec(d, path, raw, parse, o).d.host) || AllSucceed(o)
    ensures var d' := ApplyOneSpec(d, path, raw, parse, o).d; var name := parse(raw).value.name;
            && Steps(d, d', path, raw, parse, rest) && (path in d'.applied ==> d'.applied[path] == Applied(name, raw))
            && (AllSucceed(o) && path !in d.applied && name !in d.host.comps ==> path in d'.applied)
  {
    SameComps(d, rest, Built(d).host);
    if path in d.applied {
      ReplacedHeld(d, path, raw, parse, o);
      ReplaceSteps(Built(d), path, raw, parse, rest, o);
    } else {
      assert d.applied - {path} == d.applied;
      DeploySteps(Built(d), Built(d), path, raw, parse, rest, o);
    }
  }

  lemma ApplyOneSteps(d: DState, path: Path, raw: seq<byte>, parse: Parser, rest: map<Name, Component>, o: Oracle)
    requires Owns(d, rest) && Sound(d.host)
    requires StopsHeld(d.host, ApplyOneSpec(d, path, raw, parse, o).d.host) || AllSucceed(o)
    ensures Steps(d, ApplyOneSpec(d, path, raw, parse, o).d, path, raw, parse, rest)
  {
    var desc := parse(raw);
    if desc.Some? && desc.value.name != "" && desc.value.enabled {
      if o(d.host.clock) { EnableSteps(d, path, raw, parse, rest, o); } else { SameComps(d, rest, Built(d).host); }
    } else if desc.Some? && desc.value.name != "" && path in d.applied {
      DisableSteps(d, path, raw, parse, rest, o);
    }
  }

  /** Where everything succeeds, the file's entry says what the file says. */
  lemma ApplyOneSucceeds(d: DState, path: Path, raw: seq<byte>, parse: Parser, rest: map<Name, Component>, o: Oracle)
    requires Owns(d, rest) && Sound(d.host) && AllSucceed(o)
    requires parse(raw).Some? && parse(raw).value.name != ""
    ensures var d' := ApplyOneSpec(d, path, raw, parse, o).d; var desc := parse(raw).value;
            && Steps(d, d', path, raw, parse, rest)
            && (path in d'.applied ==> desc.enabled && d'.applied[path] == Applied(desc.name, raw))
            && (desc.enabled && path !in d.applied && desc.name !in d.host.comps ==> path in d'.applied)
  {
    if parse(raw).value.enabled {
      EnableSteps(d, path, raw, parse, rest, o);
    } else if path in d.applied {
      DisableSteps(d, path, raw, parse, rest, o);
    }
  }

  lemma ReplacedHeld(d: DState, path: Path, raw: seq<byte>, parse: Parser, o: Oracle)
    requires parse(raw).Some? && parse(raw).value.enabled && parse(raw).value.name != "" && o(d.host.clock) && path in d.applied
    requires StopsHeld(d.host, ApplyOneSpec(d, path, raw, parse, o).d.host) || AllSucceed(o)
    ensures TeardownSpec(Built(d), path, d.applied[path].name, o).ok
  {
    var name := d.applied[path].name;
    if AllSucceed(o) {
      SucceedingHolds(Built(d), path, name, o);
    } else if !TeardownSpec(Built(d), path, name, o).ok {
      TeardownHeld(Built(d), path, name, o);
    }
  }

  // ----- one scan, everything succeeding -----

  /** Entries of the visited files say what the files say. */
  ghost predicate Current(d: DState, files: Files, parse: Parser, visited: seq<Path>)
  {
    forall p :: p in visited && p in d.applied ==> p in Desired(files, parse) && d.applied[p] == Desired(files, parse)[p]
  }

  lemma VisitCurrent(d: DState, files: Files, path: Path, visited: seq<Path>, parse: Parser, rest: map<Name, Component>, o: Oracle)
    requires Owns(d, rest) && Sound(d.host) && Kept(d, parse) && AllSucceed(o) && path in files
    requires Good(files, parse, rest) && Current(d, files, parse, visited)
    ensures var d' := Visit(d, files, path, parse, o);
            Owns(d', rest) && Kept(d', parse) && Current(d', files, parse, visited + [path])
  {
    var d' := Visit(d, files, path, parse, o);
    if !(path in d.applied && d.applied[path].raw == files[path]) {
      ApplyOneSucceeds(d, path, files[path], parse, rest, o);
    }
    OthersKept(d, d', path);
  }

  lemma {:induction false} VisitsCurrent(d: DState, files: Files, paths: seq<Path>, parse: Parser, rest: map<Name, Component>, o: Oracle)
    requires Owns(d, rest) && Kept(d, parse) && AllSucceed(o) && Good(files, parse, rest)
    requires forall p :: p in paths ==> p in files
    ensures var d' := VisitAll(d, files, paths, parse, o); Owns(d', rest) && Kept(d', parse) && Current(d', files, parse, paths)
  {
    if paths != [] {
      VisitsCurrent(d, files, paths[..|paths| - 1], parse, rest, o);
      SplitLast(paths);
      VisitCurrent(VisitAll(d, files, paths[..|paths| - 1], parse, o), files, paths[|paths| - 1], paths[..|paths| - 1], parse, rest, o);
    }
  }

  lemma ForgetOwns(d: DState, files: Files, path: Path, parse: Parser, rest: map<Name, Component>, o: Oracle)
    requires Owns(d, rest) && Kept(d, parse)
    ensures var d' := Forget(d, files, path, o);
            && Owns(d', rest) && Kept(d', parse)
            && d'.applied == if path in files then d.applied else d.applied - {path}
  {
    if path !in files && path in d.applied {
      UndeploySound(d.host, d.applied[path].name, o);
      TornDown(d, rest, path, UndeploySpec(d.host, d.applied[path].name, o).h);
    } else if path !in files {
      assert d.applied - {path} == d.applied;
    }
  }

  /** Forgetting keeps the entries of files still there and drops every one visited. */
  lemma {:induction false} ForgetsOwn(d: DState, files: Files, gone: seq<Path>, parse: Parser, rest: map<Name, Component>, o: Oracle)
    requires Owns(d, rest) && Kept(d, parse)
    ensures var d' := ForgetAll(d, files, gone, o);
            && Owns(d', rest) && Kept(d', parse)
            && forall p :: p in d'.applied <==> p in d.applied && (p in files || p !in gone)
    ensures forall p :: p in ForgetAll(d, files, gone, o).applied ==> ForgetAll(d, files, gone, o).applied[p] == d.applied[p]
  {
    if gone != [] {
      var before, last := gone[..|gone| - 1], gone[|gone| - 1];
      ForgetsOwn(d, files, before, parse, rest, o);
      ForgetOwns(ForgetAll(d, files, before, o), files, last, parse, rest, o);
      SplitLast(gone);
      forall p ensures p in gone <==> p in before || p == last {}
    }
  }

  /** Every entry says what its file says. */
  ghost predicate Within(d: DState, files: Files, parse: Parser)
  {
    forall p :: p in d.applied ==> p in Desired(files, parse) && d.applied[p] == Desired(files, parse)[p]
  }

  /** After one scan nothing outdated is left. */
  lemma FirstScan(d: DState, files: Files, w: Walk, parse: Parser, rest: map<Name, Component>, o: Oracle)
    requires Owns(d, rest) && Kept(d, parse) && AllSucceed(o) && Good(files, parse, rest) && Covers(w, d, files, parse, o)
    ensures var d' := ScanSpec(d, files, w, parse, o); Owns(d', rest) && Kept(d', parse) && Within(d', files, parse)
  {
    VisitsCurrent(d, files, w.paths, parse, rest, o);
    var d1 := VisitAll(d, files, w.paths, parse, o);
    ForgetsOwn(d1, files, w.gone, parse, rest, o);
    var d' := ForgetAll(d1, files, w.gone, o);
    forall p | p in d'.applied ensures p in Desired(files, parse) && d'.applied[p] == Desired(files, parse)[p] {
      assert p in w.paths;
    }
  }

  // ----- the second scan -----

  ghost predicate UpTo(d: DState, files: Files, parse: Parser, visited: seq<Path>)
  {
    forall p :: p in visited && p in Desired(files, parse) ==> p in d.applied
  }

  lemma NameIsFree(d: DState, files: Files, path: Path, parse: Parser, rest: map<Name, Component>)
    requires Owns(d, rest) && Within(d, files, parse) && Good(files, parse, rest)
    requires path in Desired(files, parse) && path !in d.applied
    ensures Desired(files, parse)[path].name !in d.host.comps
  {
    var n := Desired(files, parse)[path].name;
    forall q | q in d.applied ensures d.applied[q].name != n {}
  }

  lemma VisitFills(d: DState, files: Files, path: Path, visited: seq<Path>, parse: Parser, rest: map<Name, Component>, o: Oracle)
    requires Owns(d, rest) && Kept(d, parse) && AllSucceed(o) && path in files && Good(files, parse, rest)
    requires Within(d, files, parse) && UpTo(d, files, parse, visited)
    ensures var d' := Visit(d, files, path, parse, o);
            Owns(d', rest) && Kept(d', parse) && Within(d', files, parse) && UpTo(d', files, parse, visited + [path])
  {
    var d' := Visit(d, files, path, parse, o);
    if path !in d.applied {
      if path in Desired(files, parse) {
        ApplyOneSucceeds(d, path, files[path], parse, rest, o);
        NameIsFree(d, files, path, parse, rest);
        OthersKept(d, d', path);
      } else {
        assert d' == d;
      }
    }
  }

  lemma OthersKept(d: DState, d': DState, path: Path)
    requires d'.applied - {path} == d.applied - {path}
    ensures forall p :: p != path ==> (p in d'.applied <==> p in d.applied)
    ensures forall p :: p != path && p in d'.applied ==> d'.applied[p] == d.applied[p]
  {
    forall p | p != path ensures p in d'.applied <==> p in d.applied {
      assert p in d'.applied - {path} <==> p in d.applied - {path};
    }
    forall p | p != path && p in d'.applied ensures d'.applied[p] == d.applied[p] {
      assert (d'.applied - {path})[p] == (d.applied - {path})[p];
    }
  }

  lemma {:induction false} VisitsFill(d: DState, files: Files, paths: seq<Path>, parse: Parser, rest: map<Name, Component>, o: Oracle)
    requires Owns(d, rest) && Kept(d, parse) && AllSucceed(o) && Good(files, parse, rest) && Within(d, files, parse)
    requires forall p :: p in paths ==> p in files
    ensures var d' := VisitAll(d, files, paths, parse, o);
            Owns(d', rest) && Kept(d', parse) && Within(d', files, parse) && UpTo(d', files, parse, paths)
  {
    if paths != [] {
      VisitsFill(d, files, paths[..|paths| - 1], parse, rest, o);
      SplitLast(paths);
      VisitFills(VisitAll(d, files, paths[..|paths| - 1], parse, o), files, paths[|paths| - 1], paths[..|paths| - 1], parse, rest, o);
    }
  }

  lemma SecondScan(d: DState, files: Files, w: Walk, parse: Parser, rest: map<Name, Component>, o: Oracle)
    requires Owns(d, rest) && Kept(d, parse) && AllSucceed(o) && Good(files, parse, rest) && Within(d, files, parse)
    requires Covers(w, d, files, parse, o)
    ensures var d' := ScanSpec(d, files, w, parse, o); Converged(d', files, parse, rest) && Kept(d', parse)
  {
    VisitsFill(d, files, w.paths, parse, rest, o);
    var d1 := VisitAll(d, files, w.paths, parse, o);
    AllThere(d1, files, w.paths, parse);
    ForgetsNone(d1, files, w.gone, o);
  }

  lemma AllThere(d: DState, files: Files, paths: seq<Path>, parse: Parser)
    requires Within(d, files, parse) && UpTo(d, files, parse, paths) && forall p :: p in files ==> p in paths
    ensures d.applied == Desired(files, parse)
  {
    forall p | p in Desired(files, parse) ensures p in d.applied { assert p in paths; }
  }

  // ----- afterwards -----

  lemma {:induction false} VisitsRest(d: DState, files: Files, paths: seq<Path>, parse: Parser, rest: map<Name, Component>, o: Oracle)
    requires Converged(d, files, parse, rest) && Good(files, parse, rest) && forall p :: p in paths ==> p in files
    ensures VisitAll(d, files, paths, parse, o) == d
  {
    if paths != [] {
      VisitsRest(d, files, paths[..|paths| - 1], parse, rest, o);
    }
  }

  lemma {:induction false} ForgetsNone(d: DState, files: Files, gone: seq<Path>, o: Oracle)
    requires forall p :: p in d.applied ==> p in files
    ensures ForgetAll(d, files, gone, o) == d
  {
    if gone != [] {
      ForgetsNone(d, files, gone[..|gone| - 1], o);
    }
  }

  /** A scan of a converged host changes nothing and calls nothing, whatever would fail. */
  lemma ScanRests(d: DState, files: Files, w: Walk, parse: Parser, rest: map<Name, Component>, o: Oracle)
    requires Converged(d, files, parse, rest) && Good(files, parse, rest) && Covers(w, d, files, parse, o)
    ensures ScanSpec(d, files, w, parse, o) == d
  {
    VisitsRest(d, files, w.paths, parse, rest, o);
    ForgetsNone(d, files, w.gone, o);
  }

  /** From a consistent state two scans converge, even if names moved between files. */
  lemma TwoScansConverge(d: DState, files: Files, w1: Walk, w2: Walk, parse: Parser, o: Oracle)
    requires Kept(d, parse) && Consistent(d) && AllSucceed(o) && Good(files, parse, Foreign(d))
    requires Covers(w1, d, files, parse, o) && Covers(w2, ScanSpec(d, files, w1, parse, o), files, parse, o)
    ensures Converged(ScanSpec(ScanSpec(d, files, w1, parse, o), files, w2, parse, o), files, parse, Foreign(d))
    ensures Sound(ScanSpec(ScanSpec(d, files, w1, parse, o), files, w2, parse, o).host)
  {
    FirstScan(d, files, w1, parse, Foreign(d), o);
    SecondScan(ScanSpec(d, files, w1, parse, o), files, w2, parse, Foreign(d), o);
  }
}
