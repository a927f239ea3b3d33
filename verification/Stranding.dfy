/** The states a failed stop strands (runtime/deploy.go): from any inconsistent state some
    perfectly good directory is never reached. */
module Stranding {
  import opened Wrappers
  import opened Numerals
  import opened Hosts
  import opened Deployers
  import opened Convergence

  // ----- scans that find nothing changed -----

  ghost predicate Unchanged(d: DState, files: Files)
  {
    forall p :: p in files ==> p in d.applied && d.applied[p].raw == files[p]
  }

  lemma {:induction false} VisitsSkip(d: DState, files: Files, paths: seq<Path>, parse: Parser, o: Oracle)
    requires Unchanged(d, files) && forall p :: p in paths ==> p in files
    ensures VisitAll(d, files, paths, parse, o) == d
  {
    if paths != [] {
      VisitsSkip(d, files, paths[..|paths| - 1], parse, o);
    }
  }

  /** Forgetting only takes components away, among them each forgotten entry's. */
  lemma {:induction false} ForgetsShrink(d: DState, files: Files, gone: seq<Path>, o: Oracle)
    ensures var d' := ForgetAll(d, files, gone, o);
            && (forall n :: n in d'.host.comps ==> n in d.host.comps && d'.host.comps[n] == d.host.comps[n])
            && (forall p :: p in d'.applied <==> p in d.applied && (p in files || p !in gone))
            && (forall p :: p in d'.applied ==> d'.applied[p] == d.applied[p])
            && (forall p :: p in gone && p in d.applied && p !in files ==> d.applied[p].name !in d'.host.comps)
  {
    if gone != [] {
      var before, last := gone[..|gone| - 1], gone[|gone| - 1];
      ForgetsShrink(d, files, before, o);
      SplitLast(gone);
      forall p ensures p in gone <==> p in before || p == last {}
      ForgetShrinks(ForgetAll(d, files, before, o), files, last, o);
    }
  }

  lemma ForgetShrinks(d: DState, files: Files, path: Path, o: Oracle)
    ensures var d' := Forget(d, files, path, o);
            && (forall n :: n in d'.host.comps ==> n in d.host.comps && d'.host.comps[n] == d.host.comps[n])
            && (forall p :: p in d'.applied <==> p in d.applied && (p != path || p in files))
            && (forall p :: p in d'.applied ==> d'.applied[p] == d.applied[p])
            && (path in d.applied && path !in files ==> d.applied[path].name !in d'.host.comps)
  {
  }

  lemma UnchangedScan(d: DState, files: Files, w: Walk, parse: Parser, o: Oracle)
    requires Unchanged(d, files) && Covers(w, d, files, parse, o)
    ensures var d' := ScanSpec(d, files, w, parse, o);
            && Unchanged(d', files)
            && (forall n :: n in d'.host.comps ==> n in d.host.comps)
            && (forall p :: p in files ==> d'.applied[p] == d.applied[p])
            && (forall p :: p in d.applied && p !in files ==> d.applied[p].name !in d'.host.comps)
  {
    VisitsSkip(d, files, w.paths, parse, o);
    ForgetsShrink(d, files, w.gone, o);
  }

  // ----- a directory that strands the state -----

  /** The walks of successive scans each go through what is there. */
  ghost predicate CoversAll(ws: seq<Walk>, d: DState, files: Files, parse: Parser, o: Oracle)
    decreases |ws|
  {
    ws == [] || (Covers(ws[0], d, files, parse, o) && CoversAll(ws[1..], ScanSpec(d, files, ws[0], parse, o), files, parse, o))
  }

  ghost function ScanAll(d: DState, files: Files, ws: seq<Walk>, parse: Parser, o: Oracle): DState
    requires CoversAll(ws, d, files, parse, o)
    decreases |ws|
  {
    if ws == [] then d else ScanAll(ScanSpec(d, files, ws[0], parse, o), files, ws[1..], parse, o)
  }

  /** However many scans are made, in whatever order each goes, they do not converge. */
  ghost predicate NeverSettles(d: DState, files: Files, parse: Parser, o: Oracle)
  {
    forall ws :: ws != [] && CoversAll(ws, d, files, parse, o) ==>
      !Converged(ScanAll(d, files, ws, parse, o), files, parse, Foreign(d))
  }

  /** Whatever order two scans go in, they converge. */
  ghost predicate Settles(d: DState, files: Files, parse: Parser, o: Oracle)
  {
    forall w1, w2 :: Covers(w1, d, files, parse, o) && Covers(w2, ScanSpec(d, files, w1, parse, o), files, parse, o) ==>
      Converged(ScanSpec(ScanSpec(d, files, w1, parse, o), files, w2, parse, o), files, parse, Foreign(d))
  }

  /** The name has no component, or shares its component with an entry about to go. */
  ghost predicate Doomed(d: DState, files: Files, n: Name)
  {
    n !in d.host.comps || exists q :: q in d.applied && q !in files && d.applied[q].name == n
  }

  /** A doomed name is missing after one unchanged scan and after all that follow. */
  lemma {:induction false} MissingForGood(d: DState, files: Files, n: Name, parse: Parser, o: Oracle, ws: seq<Walk>)
    requires Unchanged(d, files) && ws != [] && CoversAll(ws, d, files, parse, o) && Doomed(d, files, n)
    ensures var d' := ScanAll(d, files, ws, parse, o);
            n !in d'.host.comps && forall p :: p in files ==> p in d'.applied && d'.applied[p] == d.applied[p]
    decreases |ws|
  {
    UnchangedScan(d, files, ws[0], parse, o);
    if |ws| > 1 { MissingForGood(ScanSpec(d, files, ws[0], parse, o), files, n, parse, o, ws[1..]); }
  }

  /** The entry's component is gone, or will go with another entry of the same name. */
  lemma OneFileStrands(d: DState, p: Path, parse: Parser, o: Oracle)
    requires Kept(d, parse) && p in d.applied && d.applied[p].name !in Foreign(d)
    requires d.applied[p].name !in d.host.comps
             || exists q :: q in d.applied && q != p && d.applied[q].name == d.applied[p].name
    ensures var files := map[p := d.applied[p].raw]; Good(files, parse, Foreign(d)) && NeverSettles(d, files, parse, o)
  {
    var files, n := map[p := d.applied[p].raw], d.applied[p].name;
    assert Desired(files, parse) == map[p := d.applied[p]];
    forall ws | ws != [] && CoversAll(ws, d, files, parse, o)
      ensures !Converged(ScanAll(d, files, ws, parse, o), files, parse, Foreign(d))
    {
      MissingForGood(d, files, n, parse, o, ws);
      var d' := ScanAll(d, files, ws, parse, o);
      assert p in files && !Deployed(d'.host.comps, d'.applied[p]);
    }
  }

  /** An entry under the name of someone else's component: emptying the directory takes
      that component down. */
  lemma NoFileStrands(d: DState, p: Path, parse: Parser, o: Oracle)
    requires Kept(d, parse) && p in d.applied && d.applied[p].name in Foreign(d)
    ensures Good(map[], parse, Foreign(d)) && NeverSettles(d, map[], parse, o)
  {
    var n := d.applied[p].name;
    forall ws | ws != [] && CoversAll(ws, d, map[], parse, o)
      ensures !Converged(ScanAll(d, map[], ws, parse, o), map[], parse, Foreign(d))
    {
      MissingForGood(d, map[], n, parse, o, ws);
    }
  }

  /** Not consistent: an entry without its component, or two entries with one name. */
  lemma Inconsistency(d: DState) returns (p: Path, q: Path)
    requires !Consistent(d)
    ensures p in d.applied && q in d.applied
    ensures !Deployed(d.host.comps, d.applied[p]) || (p != q && d.applied[p].name == d.applied[q].name)
  {
    forall n | n in d.host.comps ensures n in Foreign(d) || n in Names(d.applied) {
      if n !in Foreign(d) {
        var x :| x in d.applied && d.applied[x].name == n && Deployed(d.host.comps, d.applied[x]);
      }
    }
    if x :| x in d.applied && !Deployed(d.host.comps, d.applied[x]) {
      p, q := x, x;
    } else {
      forall n | n in Foreign(d) ensures n !in Names(d.applied) {
        forall x | x in d.applied && d.applied[x].name == n ensures false { assert Mine(d, n); }
      }
      p, q :| p in d.applied && q in d.applied && d.applied[p].name == d.applied[q].name && p != q;
    }
  }

  lemma StrandedNeverSettles(d: DState, parse: Parser, o: Oracle) returns (files: Files)
    requires Kept(d, parse) && !Consistent(d)
    ensures Good(files, parse, Foreign(d)) && NeverSettles(d, files, parse, o)
  {
    var p, q := Inconsistency(d);
    var n := d.applied[p].name;
    if n in Foreign(d) {
      NoFileStrands(d, p, parse, o);
      files := map[];
    } else if n !in d.host.comps || (p != q && d.applied[q].name == n) {
      OneFileStrands(d, p, parse, o);
      files := map[p := d.applied[p].raw];
    } else {
      var owner :| owner in d.applied && d.applied[owner].name == n && Deployed(d.host.comps, d.applied[owner]);
      assert owner != p;
      OneFileStrands(d, p, parse, o);
      files := map[p := d.applied[p].raw];
    }
  }

  /** Consistency is exactly what convergence takes: it can be read off the applied map and
      the host before the scan. */
  lemma ConvergesIffConsistent(d: DState, parse: Parser, o: Oracle)
    requires Kept(d, parse) && AllSucceed(o)
    ensures Consistent(d) <==>
            forall files :: Good(files, parse, Foreign(d)) ==> Settles(d, files, parse, o)
  {
    if Consistent(d) {
      forall files | Good(files, parse, Foreign(d)) ensures Settles(d, files, parse, o) {
        forall w1, w2 | Covers(w1, d, files, parse, o) && Covers(w2, ScanSpec(d, files, w1, parse, o), files, parse, o)
          ensures Converged(ScanSpec(ScanSpec(d, files, w1, parse, o), files, w2, parse, o), files, parse, Foreign(d))
        {
          TwoScansConverge(d, files, w1, w2, parse, o);
        }
      }
    } else {
      var files := StrandedNeverSettles(d, parse, o);
      var w1 := SomeWalk(d, files, parse, o);
      var w2 := SomeWalk(ScanSpec(d, files, w1, parse, o), files, parse, o);
      TwoWalks(d, files, w1, w2, parse, o);
    }
  }

  lemma TwoWalks(d: DState, files: Files, w1: Walk, w2: Walk, parse: Parser, o: Oracle)
    requires Covers(w1, d, files, parse, o) && Covers(w2, ScanSpec(d, files, w1, parse, o), files, parse, o)
    ensures CoversAll([w1, w2], d, files, parse, o)
    ensures ScanAll(d, files, [w1, w2], parse, o) == ScanSpec(ScanSpec(d, files, w1, parse, o), files, w2, parse, o)
  {
    assert [w1, w2][1..] == [w2] && [w2][1..] == [];
    var d1 := ScanSpec(d, files, w1, parse, o);
    assert CoversAll([w2], d1, files, parse, o);
    assert ScanAll(d1, files, [w2], parse, o) == ScanAll(ScanSpec(d1, files, w2, parse, o), files, [], parse, o);
  }

  lemma SomeWalk(d: DState, files: Files, parse: Parser, o: Oracle) returns (w: Walk)
    ensures Covers(w, d, files, parse, o)
  {
    var paths := ListOf(files.Keys);
    var gone := ListOf(VisitAll(d, files, paths, parse, o).applied.Keys);
    w := Walk(paths, gone);
  }

  lemma {:induction false} ListOf(s: set<Path>) returns (l: seq<Path>)
    ensures forall p :: p in l <==> p in s
  {
    l := [];
    if s != {} {
      var x :| x in s;
      var rest := ListOf(s - {x});
      l := rest + [x];
    }
  }

  /** How a state gets stranded: the file changes and the old component fails to stop. The
      host has dropped it, the applied entry stays. */
  lemma StopFailureStrands(parse: Parser, o: Oracle, was: seq<byte>, now: seq<byte>, w: Walk)
    requires was != now && parse(was) == Some(Descriptor("acquirer", true)) && parse(now) == Some(Descriptor("acquirer", true))
    requires o(0) && !o(1) && w == Walk(["a.json"], [])
    ensures var h := HostState(["acquirer"], map["acquirer" := Component("acquirer", was)], {"acquirer"}, true, 0, []);
            var d := DState(h, map["a.json" := Applied("acquirer", was)]); var files := map["a.json" := now];
            && Kept(d, parse) && Consistent(d) && Covers(w, d, files, parse, o)
            && !Consistent(ScanSpec(d, files, w, parse, o))
  {
    var h := HostState(["acquirer"], map["acquirer" := Component("acquirer", was)], {"acquirer"}, true, 0, []);
    var d, files := DState(h, map["a.json" := Applied("acquirer", was)]), map["a.json" := now];
    assert Deployed(h.comps, d.applied["a.json"]);
    assert "acquirer" in Names(d.applied);
    assert Owns(d, map[]);
    OwnsIsConsistent(d, map[]);
    assert h.order[0] == "acquirer";
    assert w.paths[..0] == [];
    var d1 := VisitAll(d, files, w.paths, parse, o);
    assert VisitAll(d, files, [], parse, o) == d;
    assert d1 == Visit(d, files, "a.json", parse, o);
    assert d1.applied == d.applied && "acquirer" !in d1.host.comps;
    assert !Deployed(d1.host.comps, d1.applied["a.json"]);
  }
}
