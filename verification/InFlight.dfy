/** Runs of the transaction manager at the same time over one idempotency store (flow/flow.go,
    flow/idempotency.go): Lookup and Store are steps of their own, and other exchanges may
    come between them. */
module InFlight {
  import opened Wrappers
  import opened Flows

  type Id = nat

  /** Where a call of Run is: before its Lookup, past it and running its stages, done with
      them and about to Store, or returned. */
  datatype Pc = Arrived | Running | Storing(r: Ran) | Returned(r: Ran, replayed: bool)

  datatype Call = Call(w: World, ex: Exchange, key: string, pc: Pc)

  datatype State = State(calls: map<Id, Call>, stored: map<string, Option<Message>>)

  const NEW: State := State(map[], map[])

  datatype Step = Arrive(id: Id, w: World, ex: Exchange, key: string) | Lookup(id: Id) | RunStages(id: Id) | Store(id: Id)

  predicate At(s: State, id: Id, pc: Pc) { id in s.calls && s.calls[id].pc == pc }

  predicate Enabled(s: State, st: Step)
  {
    match st
    case Arrive(id, _, _, _) => id !in s.calls
    case Lookup(id) => At(s, id, Arrived)
    case RunStages(id) => At(s, id, Running)
    case Store(id) => id in s.calls && s.calls[id].pc.Storing?
  }

  function Moved(s: State, id: Id, pc: Pc): State
    requires id in s.calls
  {
    s.(calls := s.calls[id := s.calls[id].(pc := pc)])
  }

  /** The stages of a call, both phases, with nothing stored by it. */
  function Stages(f: Flow, c: Call): Ran
    requires f.entry in f.groups
  {
    Flows.Finished(c.w, Prepared(f, c.w, c.ex), None, map[])
  }

  /** A run that succeeded goes on to Store; one that failed returns. */
  function Next(f: Flow, s: State, st: Step): State
    requires f.entry in f.groups && Enabled(s, st)
  {
    match st
    case Arrive(id, w, ex, key) => s.(calls := s.calls[id := Call(w, ex, key, Arrived)])
    case Lookup(id) =>
      (var c := s.calls[id];
      if c.key in s.stored then
        Moved(s, id, Returned(Ran(None, [], [IdempotentHit], c.ex.(response := s.stored[c.key]), [], map[]), true))
      else Moved(s, id, Running))
    case RunStages(id) =>
      (var r := Stages(f, s.calls[id]);
      Moved(s, id, if r.err.None? then Storing(r) else Returned(r, false)))
    case Store(id) =>
      var c := s.calls[id];
      Moved(s, id, Returned(c.pc.r, false)).(stored := s.stored[c.key := c.pc.r.ex.response])
  }

  ghost predicate Runs(f: Flow, s: State, steps: seq<Step>)
    requires f.entry in f.groups
    decreases |steps|, 0
  {
    steps == [] || (
      var before := steps[..|steps| - 1];
      Runs(f, s, before) && Enabled(After(f, s, before), steps[|steps| - 1]))
  }

  ghost function After(f: Flow, s: State, steps: seq<Step>): State
    requires f.entry in f.groups && Runs(f, s, steps)
    decreases |steps|, 1
  {
    if steps == [] then s else Next(f, After(f, s, steps[..|steps| - 1]), steps[|steps| - 1])
  }

  // ----- one after the other -----

  /** Without others in between, the steps are the run: the same error, calls, journal,
      response and store. */
  lemma AloneIsRun(f: Flow, w: World, ex: Exchange, key: string, stored: map<string, Option<Message>>)
    requires f.entry != "" && f.entry in f.groups
    ensures var s := Next(f, Next(f, State(map[], stored), Arrive(0, w, ex, key)), Lookup(0));
            var r := RunSpec(f, w, ex, Some(key), stored);
            if key in stored then
              s.calls[0].pc.Returned? && s.calls[0].pc.r == r.(stored := map[]) && s.stored == r.stored
            else
              && At(s, 0, Running)
              && var t := Next(f, s, RunStages(0));
              if r.err.None? then
                && t.calls[0].pc.Storing?
                && var u := Next(f, t, Store(0)); u.calls[0].pc == Returned(r.(stored := map[]), false) && u.stored == r.stored
              else t.calls[0].pc == Returned(r.(stored := map[]), false) && t.stored == r.stored
  {
  }

  // ----- what decides -----

  /** A store under the key among the steps. */
  ghost predicate StoredUnder(f: Flow, steps: seq<Step>, key: string)
    requires f.entry in f.groups && Runs(f, NEW, steps)
  {
    steps != [] && (
      var before, st := steps[..|steps| - 1], steps[|steps| - 1];
      StoredUnder(f, before, key) || (st.Store? && After(f, NEW, before).calls[st.id].key == key))
  }

  lemma {:induction false} StoredIff(f: Flow, steps: seq<Step>, key: string)
    requires f.entry in f.groups && Runs(f, NEW, steps)
    ensures key in After(f, NEW, steps).stored <==> StoredUnder(f, steps, key)
  {
    if steps != [] { StoredIff(f, steps[..|steps| - 1], key); }
  }

  predicate Processed(c: Call) { c.pc.Running? || c.pc.Storing? || (c.pc.Returned? && !c.pc.replayed) }

  predicate Replayed(c: Call) { c.pc.Returned? && c.pc.replayed }

  predicate SameSide(c: Call, c': Call)
  {
    c'.key == c.key && (Processed(c') <==> Processed(c)) && (Replayed(c') <==> Replayed(c))
  }

  lemma SideStep(f: Flow, s: State, st: Step, id: Id)
    requires f.entry in f.groups && Enabled(s, st) && id in s.calls && !s.calls[id].pc.Arrived?
    ensures id in Next(f, s, st).calls && !Next(f, s, st).calls[id].pc.Arrived? && SameSide(s.calls[id], Next(f, s, st).calls[id])
  {
  }

  /** Once past its Lookup, a call stays on the side it went to. */
  lemma {:induction false} SideKept(f: Flow, steps: seq<Step>, k: nat, id: Id)
    requires f.entry in f.groups && Runs(f, NEW, steps) && k <= |steps| && Runs(f, NEW, steps[..k])
    requires var s := After(f, NEW, steps[..k]); id in s.calls && !s.calls[id].pc.Arrived?
    ensures var s, s' := After(f, NEW, steps[..k]), After(f, NEW, steps);
            id in s'.calls && !s'.calls[id].pc.Arrived? && SameSide(s.calls[id], s'.calls[id])
    decreases |steps|
  {
    if k == |steps| {
      assert steps[..k] == steps;
    } else {
      var before := steps[..|steps| - 1];
      assert before[..k] == steps[..k];
      SideKept(f, before, k, id);
      SideStep(f, After(f, NEW, before), steps[|steps| - 1], id);
    }
  }

  lemma {:induction false} PrefixRuns(f: Flow, steps: seq<Step>, k: nat)
    requires f.entry in f.groups && Runs(f, NEW, steps) && k <= |steps|
    ensures Runs(f, NEW, steps[..k]) && (k < |steps| ==> Enabled(After(f, NEW, steps[..k]), steps[k]))
    decreases |steps|
  {
    if k < |steps| - 1 {
      var before := steps[..|steps| - 1];
      PrefixRuns(f, before, k);
      assert before[..k] == steps[..k];
    } else if k == |steps| {
      assert steps[..k] == steps;
    }
  }

  /** In every interleaving: a call is processed, its stages run, exactly when no call with
      its key had stored a response before it looked. */
  lemma ProcessedIff(f: Flow, steps: seq<Step>, k: nat, id: Id)
    requires f.entry in f.groups && Runs(f, NEW, steps) && k < |steps| && steps[k] == Lookup(id)
    ensures Runs(f, NEW, steps[..k]) && id in After(f, NEW, steps[..k]).calls && id in After(f, NEW, steps).calls
    ensures var c := After(f, NEW, steps).calls[id];
            && (Processed(c) <==> !StoredUnder(f, steps[..k], c.key))
            && (Replayed(c) <==> StoredUnder(f, steps[..k], c.key))
  {
    PrefixRuns(f, steps, k);
    PrefixRuns(f, steps, k + 1);
    assert steps[..k + 1][..k] == steps[..k];
    var s := After(f, NEW, steps[..k]);
    StoredIff(f, steps[..k], s.calls[id].key);
    SideKept(f, steps, k + 1, id);
  }

  /** A store by this call among the steps. */
  predicate StoredBy(steps: seq<Step>, id: Id) { exists i :: 0 <= i < |steps| && steps[i] == Store(id) }

  /** The calls with this key are i and j alone. */
  ghost predicate OnlyTwo(s: State, key: string, i: Id, j: Id)
  {
    forall id :: id in s.calls && s.calls[id].key == key ==> id == i || id == j
  }

  lemma CallsStay(f: Flow, s: State, st: Step, id: Id)
    requires f.entry in f.groups && Enabled(s, st) && id in s.calls
    ensures id in Next(f, s, st).calls && Next(f, s, st).calls[id].key == s.calls[id].key
  {
  }

  /** A call that has yet to look has not stored. */
  lemma {:induction false} ArrivedNotStored(f: Flow, steps: seq<Step>, id: Id)
    requires f.entry in f.groups && Runs(f, NEW, steps)
    requires id !in After(f, NEW, steps).calls || After(f, NEW, steps).calls[id].pc.Arrived?
    ensures !StoredBy(steps, id)
  {
    if steps != [] {
      var before, st := steps[..|steps| - 1], steps[|steps| - 1];
      if id in After(f, NEW, before).calls { CallsStay(f, After(f, NEW, before), st, id); }
      ArrivedNotStored(f, before, id);
      NotStoredYet(before, st, steps, id);
    }
  }

  lemma NotStoredYet(before: seq<Step>, st: Step, steps: seq<Step>, id: Id)
    requires steps != [] && before == steps[..|steps| - 1] && st == steps[|steps| - 1]
    ensures StoredBy(steps, id) <==> StoredBy(before, id) || st == Store(id)
  {
    if StoredBy(before, id) {
      var i :| 0 <= i < |before| && before[i] == Store(id);
      assert steps[i] == Store(id);
    }
  }

  /** Stores under a key are those of its calls. */
  lemma {:induction false} StoredByItsCalls(f: Flow, steps: seq<Step>, key: string, i: Id, j: Id)
    requires f.entry in f.groups && Runs(f, NEW, steps) && OnlyTwo(After(f, NEW, steps), key, i, j)
    requires forall id :: id in {i, j} && id in After(f, NEW, steps).calls ==> After(f, NEW, steps).calls[id].key == key
    ensures StoredUnder(f, steps, key) <==> StoredBy(steps, i) || StoredBy(steps, j)
  {
    if steps != [] {
      var before, st := steps[..|steps| - 1], steps[|steps| - 1];
      var s := After(f, NEW, before);
      forall id | id in s.calls ensures id in After(f, NEW, steps).calls && After(f, NEW, steps).calls[id].key == s.calls[id].key {
        CallsStay(f, s, st, id);
      }
      StoredByItsCalls(f, before, key, i, j);
      NotStoredYet(before, st, steps, i);
      NotStoredYet(before, st, steps, j);
    }
  }

  lemma {:induction false} KeysStay(f: Flow, steps: seq<Step>, k: nat, id: Id)
    requires f.entry in f.groups && Runs(f, NEW, steps) && k <= |steps| && Runs(f, NEW, steps[..k])
    requires id in After(f, NEW, steps[..k]).calls
    ensures id in After(f, NEW, steps).calls && After(f, NEW, steps).calls[id].key == After(f, NEW, steps[..k]).calls[id].key
    decreases |steps|
  {
    if k == |steps| {
      assert steps[..k] == steps;
    } else {
      var before := steps[..|steps| - 1];
      assert before[..k] == steps[..k];
      KeysStay(f, before, k, id);
      CallsStay(f, After(f, NEW, before), steps[|steps| - 1], id);
    }
  }

  /** Before the k-th step, what is stored under the key of two calls is stored by them. */
  lemma StoredByTwo(f: Flow, steps: seq<Step>, k: nat, key: string, i: Id, j: Id)
    requires f.entry in f.groups && Runs(f, NEW, steps) && k <= |steps| && OnlyTwo(After(f, NEW, steps), key, i, j)
    requires forall id :: id in {i, j} && id in After(f, NEW, steps).calls ==> After(f, NEW, steps).calls[id].key == key
    ensures Runs(f, NEW, steps[..k])
    ensures StoredUnder(f, steps[..k], key) <==> StoredBy(steps[..k], i) || StoredBy(steps[..k], j)
  {
    PrefixRuns(f, steps, k);
    var s := After(f, NEW, steps[..k]);
    forall id | id in s.calls ensures id in After(f, NEW, steps).calls && After(f, NEW, steps).calls[id].key == s.calls[id].key {
      KeysStay(f, steps, k, id);
    }
    StoredByItsCalls(f, steps[..k], key, i, j);
  }

  lemma LooksUnstored(f: Flow, steps: seq<Step>, k: nat, id: Id)
    requires f.entry in f.groups && Runs(f, NEW, steps) && k < |steps| && steps[k] == Lookup(id)
    ensures !StoredBy(steps[..k], id)
  {
    PrefixRuns(f, steps, k);
    ArrivedNotStored(f, steps[..k], id);
  }

  lemma StoredEarlier(steps: seq<Step>, a: nat, b: nat, id: Id)
    requires a <= b <= |steps| && StoredBy(steps[..a], id)
    ensures StoredBy(steps[..b], id)
  {
    var i :| 0 <= i < a && steps[..a][i] == Store(id);
    assert steps[..b][i] == Store(id);
  }

  /** Two calls with one key, the second looking after the first: the first is processed, and
      the second is too, a retransmission run a second time, exactly when it looks before
      the first has stored. */
  lemma BothProcessedIff(f: Flow, steps: seq<Step>, i: Id, j: Id, a: nat, b: nat)
    requires f.entry in f.groups && Runs(f, NEW, steps) && a < b < |steps|
    requires steps[a] == Lookup(i) && steps[b] == Lookup(j)
    requires var s := After(f, NEW, steps);
             i in s.calls && j in s.calls && s.calls[i].key == s.calls[j].key && OnlyTwo(s, s.calls[i].key, i, j)
    ensures var s := After(f, NEW, steps);
            && Processed(s.calls[i])
            && (Processed(s.calls[j]) <==> !StoredBy(steps[..b], i))
  {
    var key := After(f, NEW, steps).calls[i].key;
    ProcessedIff(f, steps, a, i);
    ProcessedIff(f, steps, b, j);
    StoredByTwo(f, steps, a, key, i, j);
    StoredByTwo(f, steps, b, key, i, j);
    LooksUnstored(f, steps, a, i);
    LooksUnstored(f, steps, b, j);
    if StoredBy(steps[..a], j) { StoredEarlier(steps, a, b, j); }
  }

  lemma OneMore(f: Flow, before: seq<Step>, st: Step, s: State)
    requires f.entry in f.groups && Runs(f, NEW, before) && After(f, NEW, before) == s && Enabled(s, st)
    ensures Runs(f, NEW, before + [st]) && After(f, NEW, before + [st]) == Next(f, s, st)
  {
    assert (before + [st])[..|before|] == before;
  }

  /** It happens, whatever the stages do: both arrive, both look, then both run. */
  lemma RunsTwice(f: Flow, w: World, ex: Exchange, key: string) returns (steps: seq<Step>)
    requires f.entry in f.groups
    ensures Runs(f, NEW, steps)
    ensures var s := After(f, NEW, steps);
            && 0 in s.calls && 1 in s.calls && s.calls[0].key == key == s.calls[1].key
            && !s.calls[0].pc.Running? && !s.calls[1].pc.Running? && Processed(s.calls[0]) && Processed(s.calls[1])
            && s.calls[0].pc.r == Stages(f, s.calls[0]) == s.calls[1].pc.r
  {
    var looked;
    steps, looked := BothLook(f, w, ex, key);
    OneMore(f, steps, RunStages(0), looked);
    steps := steps + [RunStages(0)];
    var ran := Next(f, looked, RunStages(0));
    OneMore(f, steps, RunStages(1), ran);
    steps := steps + [RunStages(1)];
  }

  lemma BothLook(f: Flow, w: World, ex: Exchange, key: string) returns (steps: seq<Step>, s: State)
    requires f.entry in f.groups
    ensures Runs(f, NEW, steps) && After(f, NEW, steps) == s
    ensures s.stored == map[] && 0 in s.calls && 1 in s.calls && s.calls[0] == Call(w, ex, key, Running) == s.calls[1]
  {
    steps, s := [], NEW;
    OneMore(f, steps, Arrive(0, w, ex, key), s);
    steps, s := steps + [Arrive(0, w, ex, key)], Next(f, s, Arrive(0, w, ex, key));
    OneMore(f, steps, Arrive(1, w, ex, key), s);
    steps, s := steps + [Arrive(1, w, ex, key)], Next(f, s, Arrive(1, w, ex, key));
    OneMore(f, steps, Lookup(0), s);
    steps, s := steps + [Lookup(0)], Next(f, s, Lookup(0));
    OneMore(f, steps, Lookup(1), s);
    steps, s := steps + [Lookup(1)], Next(f, s, Lookup(1));
  }
}
