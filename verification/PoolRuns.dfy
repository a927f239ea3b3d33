/** Every interleaving of pool callers, reconnectors and Close (link/pool.go). */
module PoolRuns {
  import opened Wrappers
  import opened Pools

  /** A reconnector goroutine: about to be spawned by Discard, at the top of its loop,
      dialling, holding a fresh link, in backoff, or ended. */
  datatype Pc = Spawning | Looping | Dialling | Dialled(l: Link) | Backoff | Ended

  datatype Worker = Worker(slot: nat, pc: Pc)

  /** A Close call: done is closed and the sweep is next, waiting for the goroutines, or
      returned. */
  datatype Closer = Sweeping | Waiting | Returned

  /** `built`: how many slots NewPool has been through. `dialled` and `shut`: the links the
      pool has ever dialled, and those that have been closed. */
  datatype Pool = Pool(
    slots: seq<Option<Link>>, built: nat, done: bool, workers: seq<Worker>, closers: seq<Closer>,
    dialled: set<Link>, shut: set<Link>)

  function New(size: nat): Pool { Pool(seq(size, _ => None), 0, false, [], [], {}, {}) }

  datatype Step =
    | Build(r: Option<Link>) | Discard(l: Link) | Spawn(w: nat) | Look(w: nat) | Dial(w: nat, r: Option<Link>)
    | Install(w: nat) | Timer(w: nat) | SeeDone(w: nat) | StartClose | Sweep(c: nat) | FinishClose(c: nat)

  predicate IsAt(p: Pool, w: nat, pc: Pc) { w < |p.workers| && p.workers[w].pc == pc }

  predicate Fresh(p: Pool, r: Option<Link>) { r.Some? ==> r.value !in p.dialled && r.value !in p.shut }

  predicate Enabled(p: Pool, s: Step)
  {
    match s
    case Build(r) => p.built < |p.slots| && Fresh(p, r)
    case Discard(_) => p.built == |p.slots|
    case Spawn(w) => IsAt(p, w, Spawning)
    case Look(w) => IsAt(p, w, Looping)
    case Dial(w, r) => IsAt(p, w, Dialling) && Fresh(p, r)
    case Install(w) => w < |p.workers| && p.workers[w].pc.Dialled? && p.workers[w].slot < |p.slots|
    case Timer(w) => IsAt(p, w, Backoff)
    case SeeDone(w) => IsAt(p, w, Backoff) && p.done
    case StartClose => p.built == |p.slots|
    case Sweep(c) => c < |p.closers| && p.closers[c] == Sweeping
    case FinishClose(c) =>
      c < |p.closers| && p.closers[c] == Waiting
      && forall w :: 0 <= w < |p.workers| ==> p.workers[w].pc == Ended || p.workers[w].pc == Spawning
  }

  function At(p: Pool, w: nat, pc: Pc): Pool
    requires w < |p.workers|
  {
    p.(workers := p.workers[w := p.workers[w].(pc := pc)])
  }

  function SlotOf(slots: seq<Option<Link>>, l: Link): (i: nat)
    ensures i <= |slots| && (i < |slots| ==> slots[i] == Some(l)) && (i == |slots| ==> Some(l) !in slots)
  {
    if slots == [] || slots[0] == Some(l) then 0 else 1 + SlotOf(slots[1..], l)
  }

  function Emptied(slots: seq<Option<Link>>): seq<Option<Link>> { seq(|slots|, _ => None) }

  function Links(slots: seq<Option<Link>>): set<Link>
  {
    set i | 0 <= i < |slots| && slots[i].Some? :: slots[i].value
  }

  function Next(p: Pool, s: Step): Pool
    requires Enabled(p, s)
  {
    match s
    case Build(r) =>
      if r.Some? then p.(slots := p.slots[p.built := r], built := p.built + 1, dialled := p.dialled + {r.value})
      else p.(workers := p.workers + [Worker(p.built, Looping)], built := p.built + 1)
    case Discard(l) =>
      (var i := SlotOf(p.slots, l);
      var q := p.(shut := p.shut + {l});
      if i == |p.slots| then q else q.(slots := p.slots[i := None], workers := p.workers + [Worker(i, Spawning)]))
    case Spawn(w) => At(p, w, Looping)
    case Look(w) => At(p, w, if p.done then Ended else Dialling)
    case Dial(w, r) =>
      if r.Some? then At(p, w, Dialled(r.value)).(dialled := p.dialled + {r.value}) else At(p, w, Backoff)
    case Install(w) =>
      (var l := p.workers[w].pc.l;
      if p.done then At(p, w, Ended).(shut := p.shut + {l})
      else At(p, w, Ended).(slots := p.slots[p.workers[w].slot := Some(l)]))
    case Timer(w) => At(p, w, Looping)
    case SeeDone(w) => At(p, w, Ended)
    case StartClose => p.(done := true, closers := p.closers + [Sweeping])
    case Sweep(c) => p.(slots := Emptied(p.slots), shut := p.shut + Links(p.slots), closers := p.closers[c := Waiting])
    case FinishClose(c) => p.(closers := p.closers[c := Returned])
  }

  // ----- reconnectors per slot -----

  predicate Active(w: Worker, i: nat) { w.slot == i && w.pc != Ended }

  function Count(ws: seq<Worker>, i: nat): nat
  {
    if ws == [] then 0 else Count(ws[..|ws| - 1], i) + if Active(ws[|ws| - 1], i) then 1 else 0
  }

  lemma {:induction false} CountUpdate(ws: seq<Worker>, w: nat, x: Worker, i: nat)
    requires w < |ws|
    ensures Count(ws[w := x], i) == Count(ws, i) - (if Active(ws[w], i) then 1 else 0) + (if Active(x, i) then 1 else 0)
  {
    var before := ws[..|ws| - 1];
    if w < |ws| - 1 {
      CountUpdate(before, w, x, i);
      assert ws[w := x][..|ws| - 1] == before[w := x];
    } else {
      assert ws[w := x][..|ws| - 1] == before;
    }
  }

  lemma CountSnoc(ws: seq<Worker>, x: Worker, i: nat)
    ensures Count(ws + [x], i) == Count(ws, i) + if Active(x, i) then 1 else 0
  {
    assert (ws + [x])[..|ws|] == ws;
  }

  lemma {:induction false} CountPositive(ws: seq<Worker>, w: nat, i: nat)
    requires w < |ws| && Active(ws[w], i)
    ensures Count(ws, i) >= 1
  {
    if w < |ws| - 1 {
      CountPositive(ws[..|ws| - 1], w, i);
    }
  }

  /** One reconnector for an empty slot, none for a filled one. */
  predicate SlotOk(p: Pool, i: nat)
    requires i < |p.slots|
  {
    if i < p.built then Count(p.workers, i) == (if p.slots[i].None? then 1 else 0)
    else p.slots[i].None? && Count(p.workers, i) == 0
  }

  // ----- where a link is -----

  ghost predicate InHand(p: Pool, l: Link)
  {
    exists w :: 0 <= w < |p.workers| && p.workers[w].pc == Dialled(l)
  }

  ghost predicate Accounted(p: Pool, l: Link)
  {
    l in p.shut || Some(l) in p.slots || InHand(p, l)
  }

  predicate CloserOk(p: Pool, c: Closer)
  {
    && p.done && p.built == |p.slots|
    && (!c.Sweeping? ==> forall i :: 0 <= i < |p.slots| ==> p.slots[i].None?)
    && (c.Returned? ==> forall w :: 0 <= w < |p.workers| ==>
          p.workers[w].pc == Ended || p.workers[w].pc == Spawning || p.workers[w].pc == Looping)
  }

  ghost predicate Inv(p: Pool)
  {
    && p.built <= |p.slots| && (p.done ==> p.built == |p.slots|)
    && (forall w :: 0 <= w < |p.workers| ==> p.workers[w].slot < p.built)
    && (!p.done ==> forall i :: 0 <= i < |p.slots| ==> SlotOk(p, i))
    && (forall l :: l in p.dialled ==> Accounted(p, l))
    && (forall c :: 0 <= c < |p.closers| ==> CloserOk(p, p.closers[c]))
  }

  lemma NewOk(size: nat)
    ensures Inv(New(size))
  {
  }

  // ----- each step -----

  /** One worker moves on without taking up or laying down a link. */
  lemma WorkerMoves(p: Pool, w: nat, pc: Pc)
    requires Inv(p) && w < |p.workers| && !p.workers[w].pc.Dialled? && !pc.Dialled?
    requires p.workers[w].pc != Ended && (pc == Ended ==> p.done)
    requires pc == Ended || pc == Looping || (!p.done && p.workers[w].pc == Looping) || p.workers[w].pc == Dialling
    ensures Inv(At(p, w, pc))
  {
    var p' := At(p, w, pc);
    if !p.done {
      forall i | 0 <= i < |p.slots| ensures SlotOk(p', i) {
        assert SlotOk(p, i);
        CountUpdate(p.workers, w, p'.workers[w], i);
      }
    }
    forall l | l in p'.dialled ensures Accounted(p', l) {
      assert Accounted(p, l);
      if InHand(p, l) {
        var v :| 0 <= v < |p.workers| && p.workers[v].pc == Dialled(l);
        assert p'.workers[v].pc == Dialled(l);
      }
    }
  }

  lemma DialKeeps(p: Pool, w: nat, l: Link)
    requires Inv(p) && IsAt(p, w, Dialling) && Fresh(p, Some(l))
    ensures Inv(Next(p, Dial(w, Some(l))))
  {
    var p' := Next(p, Dial(w, Some(l)));
    if !p.done {
      forall i | 0 <= i < |p.slots| ensures SlotOk(p', i) {
        assert SlotOk(p, i);
        CountUpdate(p.workers, w, p'.workers[w], i);
      }
    }
    forall x | x in p'.dialled ensures Accounted(p', x) {
      if x == l {
        assert p'.workers[w].pc == Dialled(l);
      } else {
        assert Accounted(p, x);
        if InHand(p, x) {
          var v :| 0 <= v < |p.workers| && p.workers[v].pc == Dialled(x);
          assert p'.workers[v].pc == Dialled(x);
        }
      }
    }
  }

  lemma InstallKeeps(p: Pool, w: nat)
    requires Inv(p) && Enabled(p, Install(w))
    ensures Inv(Next(p, Install(w)))
  {
    var p', l, slot := Next(p, Install(w)), p.workers[w].pc.l, p.workers[w].slot;
    if !p.done {
      CountPositive(p.workers, w, slot);
      assert SlotOk(p, slot) && p.slots[slot].None?;
      forall i | 0 <= i < |p.slots| ensures SlotOk(p', i) {
        assert SlotOk(p, i);
        CountUpdate(p.workers, w, p'.workers[w], i);
      }
    }
    forall x | x in p'.dialled ensures Accounted(p', x) {
      assert Accounted(p, x);
      if x == l {
        if !p.done { assert p'.slots[slot] == Some(l); }
      } else if InHand(p, x) {
        var v :| 0 <= v < |p.workers| && p.workers[v].pc == Dialled(x);
        assert p'.workers[v].pc == Dialled(x);
      } else if Some(x) in p.slots {
        var i :| 0 <= i < |p.slots| && p.slots[i] == Some(x);
        assert p'.slots[i] == Some(x);
      }
    }
  }

  lemma BuildKeeps(p: Pool, r: Option<Link>)
    requires Inv(p) && Enabled(p, Build(r))
    ensures Inv(Next(p, Build(r)))
  {
    var p' := Next(p, Build(r));
    if !p.done {
      forall i | 0 <= i < |p.slots| ensures SlotOk(p', i) {
        assert SlotOk(p, i);
        CountSnoc(p.workers, Worker(p.built, Looping), i);
      }
    }
    forall x | x in p'.dialled ensures Accounted(p', x) {
      if Some(x) == r {
        assert p'.slots[p.built] == r;
      } else {
        assert Accounted(p, x);
        BuildAccounts(p, r, x);
      }
    }
  }

  lemma BuildAccounts(p: Pool, r: Option<Link>, x: Link)
    requires Inv(p) && Enabled(p, Build(r)) && Accounted(p, x) && !p.done
    ensures Accounted(Next(p, Build(r)), x)
  {
    var p' := Next(p, Build(r));
    if InHand(p, x) {
      var v :| 0 <= v < |p.workers| && p.workers[v].pc == Dialled(x);
      assert p'.workers[v].pc == Dialled(x);
    } else if Some(x) in p.slots {
      var i :| 0 <= i < |p.slots| && p.slots[i] == Some(x);
      assert SlotOk(p, p.built);
      assert p'.slots[i] == Some(x);
    }
  }

  lemma DiscardKeeps(p: Pool, l: Link)
    requires Inv(p) && Enabled(p, Discard(l))
    ensures Inv(Next(p, Discard(l)))
  {
    var p', s := Next(p, Discard(l)), SlotOf(p.slots, l);
    if !p.done {
      forall i | 0 <= i < |p.slots| ensures SlotOk(p', i) {
        assert SlotOk(p, i);
        CountSnoc(p.workers, Worker(s, Spawning), i);
      }
    }
    forall x | x in p'.dialled ensures Accounted(p', x) {
      assert Accounted(p, x);
      if x != l && InHand(p, x) {
        var v :| 0 <= v < |p.workers| && p.workers[v].pc == Dialled(x);
        assert p'.workers[v].pc == Dialled(x);
      } else if x != l && Some(x) in p.slots {
        var i :| 0 <= i < |p.slots| && p.slots[i] == Some(x);
        assert p'.slots[i] == Some(x);
      }
    }
    forall c | 0 <= c < |p'.closers| ensures CloserOk(p', p'.closers[c]) {
      assert CloserOk(p, p.closers[c]);
    }
  }

  lemma SweepKeeps(p: Pool, c: nat)
    requires Inv(p) && Enabled(p, Sweep(c))
    ensures Inv(Next(p, Sweep(c)))
  {
    var p' := Next(p, Sweep(c));
    assert CloserOk(p, p.closers[c]);
    forall x | x in p'.dialled ensures Accounted(p', x) {
      assert Accounted(p, x);
      if InHand(p, x) {
        var v :| 0 <= v < |p.workers| && p.workers[v].pc == Dialled(x);
        assert p'.workers[v].pc == Dialled(x);
      } else if Some(x) in p.slots {
        var i :| 0 <= i < |p.slots| && p.slots[i] == Some(x);
        assert x in Links(p.slots);
      }
    }
    forall k | 0 <= k < |p'.closers| ensures CloserOk(p', p'.closers[k]) {
      assert CloserOk(p, p.closers[k]);
    }
  }

  lemma CloseKeeps(p: Pool, s: Step)
    requires Inv(p) && Enabled(p, s) && (s.StartClose? || s.FinishClose?)
    ensures Inv(Next(p, s))
  {
    var p' := Next(p, s);
    forall x | x in p'.dialled ensures Accounted(p', x) {
      assert Accounted(p, x);
      if InHand(p, x) {
        var v :| 0 <= v < |p.workers| && p.workers[v].pc == Dialled(x);
        assert p'.workers[v].pc == Dialled(x);
      }
    }
    forall k | 0 <= k < |p'.closers| ensures CloserOk(p', p'.closers[k]) {
      if k < |p.closers| { assert CloserOk(p, p.closers[k]); }
    }
  }

  lemma StepKeeps(p: Pool, s: Step)
    requires Inv(p) && Enabled(p, s)
    ensures Inv(Next(p, s))
  {
    match s
    case Build(r) => BuildKeeps(p, r);
    case Discard(l) => DiscardKeeps(p, l);
    case Spawn(w) => WorkerMoves(p, w, Looping);
    case Look(w) => WorkerMoves(p, w, if p.done then Ended else Dialling);
    case Dial(w, r) => if r.Some? { DialKeeps(p, w, r.value); } else { WorkerMoves(p, w, Backoff); }
    case Install(w) => InstallKeeps(p, w);
    case Timer(w) => WorkerMoves(p, w, Looping);
    case SeeDone(w) => WorkerMoves(p, w, Ended);
    case StartClose => CloseKeeps(p, s);
    case Sweep(c) => SweepKeeps(p, c);
    case FinishClose(c) => CloseKeeps(p, s);
  }

  // ----- whole runs -----

  ghost predicate Runs(p: Pool, steps: seq<Step>)
    decreases |steps|
  {
    steps == [] || (Enabled(p, steps[0]) && Runs(Next(p, steps[0]), steps[1..]))
  }

  ghost function After(p: Pool, steps: seq<Step>): Pool
    requires Runs(p, steps)
    decreases |steps|
  {
    if steps == [] then p else After(Next(p, steps[0]), steps[1..])
  }

  lemma {:induction false} RunKeeps(p: Pool, steps: seq<Step>)
    requires Inv(p) && Runs(p, steps)
    ensures Inv(After(p, steps))
    decreases |steps|
  {
    if steps != [] {
      StepKeeps(p, steps[0]);
      RunKeeps(Next(p, steps[0]), steps[1..]);
    }
  }

  /** Until Close, each empty slot has exactly one reconnector (or a Discard about to start
      it) and each filled slot none. */
  lemma OneReconnectorPerEmptySlot(size: nat, steps: seq<Step>, i: nat)
    requires Runs(New(size), steps)
    requires var p := After(New(size), steps); !p.done && i < p.built
    ensures var p := After(New(size), steps);
            && i < |p.slots| && Count(p.workers, i) == if p.slots[i].None? then 1 else 0
  {
    NewOk(size);
    RunKeeps(New(size), steps);
    assert SlotOk(After(New(size), steps), i);
  }

  /** Once a Close has returned, every link the pool ever dialled is closed, and no
      reconnector is left that could dial another. */
  lemma CloseShutsEveryLink(size: nat, steps: seq<Step>, c: nat)
    requires Runs(New(size), steps)
    requires var p := After(New(size), steps); c < |p.closers| && p.closers[c].Returned?
    ensures var p := After(New(size), steps);
            && p.dialled <= p.shut
            && forall w, r :: !Enabled(p, Dial(w, r))
  {
    NewOk(size);
    RunKeeps(New(size), steps);
    var p := After(New(size), steps);
    assert CloserOk(p, p.closers[c]);
    forall l | l in p.dialled ensures l in p.shut {
      assert Accounted(p, l);
    }
  }
}
