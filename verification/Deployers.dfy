/** The directory reconciler (runtime/deploy.go): Scan, applyOne and teardown over a host. */
module Deployers {
  import opened Wrappers
  import opened Numerals
  import opened Hosts

  type Path = string

  datatype Descriptor = Descriptor(name: Name, enabled: bool)

  /** What a descriptor file says; None where it does not parse. */
  type Parser = seq<byte> -> Option<Descriptor>

  type Files = map<Path, seq<byte>>

  datatype Applied = Applied(name: Name, raw: seq<byte>)

  datatype DState = DState(host: HostState, applied: map<Path, Applied>)

  datatype DResult = DResult(ok: bool, d: DState)

  function TeardownSpec(d: DState, path: Path, name: Name, o: Oracle): DResult
  {
    var u := UndeploySpec(d.host, name, o);
    if u.outcome.Failed? then DResult(false, d.(host := u.h))
    else DResult(true, DState(u.h, d.applied - {path}))
  }

  /** The new component is built before the old one is torn down. A factory is given the
      descriptor's name and builds a component of that name. */
  function ApplyOneSpec(d: DState, path: Path, raw: seq<byte>, parse: Parser, o: Oracle): DResult
  {
    var desc := parse(raw);
    if desc.None? || desc.value.name == "" then DResult(false, d)
    else if !desc.value.enabled then
      if path in d.applied then TeardownSpec(d, path, d.applied[path].name, o) else DResult(true, d)
    else
      var built := d.(host := d.host.(clock := d.host.clock + 1));
      if !o(d.host.clock) then DResult(false, built)
      else
        var t := if path in d.applied then TeardownSpec(built, path, d.applied[path].name, o) else DResult(true, built);
        if !t.ok then t
        else DeployNew(t.d, path, Applied(desc.value.name, raw), o)
  }

  function DeployNew(d: DState, path: Path, a: Applied, o: Oracle): DResult
  {
    var p := DeploySpec(d.host, Component(a.name, a.raw), o);
    if p.outcome.Done? then DResult(true, DState(p.h, d.applied[path := a])) else DResult(false, d.(host := p.h))
  }

  function Visit(d: DState, files: Files, path: Path, parse: Parser, o: Oracle): DState
    requires path in files
  {
    if path in d.applied && d.applied[path].raw == files[path] then d
    else ApplyOneSpec(d, path, files[path], parse, o).d
  }

  function VisitAll(d: DState, files: Files, paths: seq<Path>, parse: Parser, o: Oracle): DState
    requires forall p :: p in paths ==> p in files
  {
    if paths == [] then d
    else Visit(VisitAll(d, files, paths[..|paths| - 1], parse, o), files, paths[|paths| - 1], parse, o)
  }

  /** A file that is gone: undeployed and forgotten, whether or not its stop succeeded. */
  function Forget(d: DState, files: Files, path: Path, o: Oracle): DState
  {
    if path in files || path !in d.applied then d
    else DState(UndeploySpec(d.host, d.applied[path].name, o).h, d.applied - {path})
  }

  function ForgetAll(d: DState, files: Files, gone: seq<Path>, o: Oracle): DState
  {
    if gone == [] then d
    else Forget(ForgetAll(d, files, gone[..|gone| - 1], o), files, gone[|gone| - 1], o)
  }

  /** The orders one scan goes through the files (sorted, in the source) and through the
      applied map (unspecified). */
  datatype Walk = Walk(paths: seq<Path>, gone: seq<Path>)

  predicate Covers(w: Walk, d: DState, files: Files, parse: Parser, o: Oracle)
  {
    && (forall p :: p in w.paths ==> p in files) && (forall p :: p in files ==> p in w.paths)
    && (forall p :: p in VisitAll(d, files, w.paths, parse, o).applied && p !in files ==> p in w.gone)
  }

  function ScanSpec(d: DState, files: Files, w: Walk, parse: Parser, o: Oracle): DState
    requires Covers(w, d, files, parse, o)
  {
    ForgetAll(VisitAll(d, files, w.paths, parse, o), files, w.gone, o)
  }

  // ----- what a reachable state keeps -----

  /** An applied entry is an enabled descriptor's, under its name. */
  ghost predicate Kept(d: DState, parse: Parser)
  {
    && Sound(d.host)
    && forall p :: p in d.applied ==>
         parse(d.applied[p].raw) == Some(Descriptor(d.applied[p].name, true)) && d.applied[p].name != ""
  }

  function Names(applied: map<Path, Applied>): set<Name>
  {
    set p | p in applied :: applied[p].name
  }

  predicate Deployed(comps: map<Name, Component>, a: Applied)
  {
    a.name in comps && comps[a.name] == Component(a.name, a.raw)
  }

  /** The host holds the components `rest` and, one each, those of the applied entries. */
  ghost predicate Owns(d: DState, rest: map<Name, Component>)
  {
    && (forall p :: p in d.applied ==> Deployed(d.host.comps, d.applied[p]))
    && (forall p, q :: p in d.applied && q in d.applied && d.applied[p].name == d.applied[q].name ==> p == q)
    && (forall n :: n in rest ==> n !in Names(d.applied) && n in d.host.comps && d.host.comps[n] == rest[n])
    && (forall n :: n in d.host.comps ==> n in rest || n in Names(d.applied))
  }

  /** The component under this name was put there for a descriptor still applied. */
  ghost predicate Mine(d: DState, n: Name)
  {
    exists p :: p in d.applied && d.applied[p].name == n && Deployed(d.host.comps, d.applied[p])
  }

  /** Components other parts of the program registered. */
  ghost function Foreign(d: DState): map<Name, Component>
  {
    map n | n in d.host.comps && !Mine(d, n) :: d.host.comps[n]
  }

  ghost predicate Consistent(d: DState) { Owns(d, Foreign(d)) }

  lemma OwnsIsConsistent(d: DState, rest: map<Name, Component>)
    requires Owns(d, rest)
    ensures Foreign(d) == rest
  {
    forall n | n in d.host.comps ensures n in rest <==> !Mine(d, n) {
      if n !in rest {
        var p :| p in d.applied && d.applied[p].name == n;
        assert Deployed(d.host.comps, d.applied[p]);
      }
    }
  }

  // ----- steps -----

  lemma TornDown(d: DState, rest: map<Name, Component>, path: Path, h: HostState)
    requires Owns(d, rest) && path in d.applied && h.comps == d.host.comps - {d.applied[path].name}
    ensures Owns(DState(h, d.applied - {path}), rest)
  {
    var d' := DState(h, d.applied - {path});
    var gone := d.applied[path].name;
    forall n | n in h.comps ensures n in rest || n in Names(d'.applied) {
      if n !in rest {
        var p :| p in d.applied && d.applied[p].name == n;
        assert p in d'.applied && d'.applied[p].name == n;
      }
    }
    forall n | n in rest ensures n !in Names(d'.applied) && n in h.comps {
      assert n !in Names(d.applied);
      assert d.applied[path].name in Names(d.applied);
    }
    forall p | p in d'.applied ensures Deployed(h.comps, d'.applied[p]) {
      assert Deployed(d.host.comps, d.applied[p]);
    }
  }

  lemma PutUp(d: DState, rest: map<Name, Component>, path: Path, a: Applied, h: HostState)
    requires Owns(d, rest) && path !in d.applied && a.name !in d.host.comps
    requires h.comps == d.host.comps[a.name := Component(a.name, a.raw)]
    ensures Owns(DState(h, d.applied[path := a]), rest)
  {
    var d' := DState(h, d.applied[path := a]);
    forall p | p in d'.applied ensures Deployed(h.comps, d'.applied[p]) {
      if p != path { assert Deployed(d.host.comps, d.applied[p]); }
    }
    forall p | p in d.applied ensures d.applied[p].name != a.name {
      assert Deployed(d.host.comps, d.applied[p]);
    }
    NamesGrow(d.applied, path, a);
  }

  lemma NamesGrow(applied: map<Path, Applied>, path: Path, a: Applied)
    requires path !in applied
    ensures Names(applied[path := a]) == Names(applied) + {a.name}
  {
    var applied' := applied[path := a];
    forall n | n in Names(applied) + {a.name} ensures n in Names(applied') {
      if n == a.name {
        assert path in applied' && applied'[path].name == n;
      } else {
        var p :| p in applied && applied[p].name == n;
        assert p in applied' && applied'[p].name == n;
      }
    }
  }

  lemma SameComps(d: DState, rest: map<Name, Component>, h: HostState)
    requires Owns(d, rest) && h.comps == d.host.comps
    ensures Owns(d.(host := h), rest)
  {
    forall p | p in d.applied ensures Deployed(h.comps, d.applied[p]) {
      assert Deployed(d.host.comps, d.applied[p]);
    }
  }
}
