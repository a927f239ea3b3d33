/** What every interleaving of the multiplexer keeps (mux/mux.go). */
module MuxSafety {
  import opened Wrappers
  import opened Muxes

  // ----- each step keeps the invariant -----

  /** One call changes on its own: nothing about pending, reader, frames or cause. */
  lemma CallStep(m: Mux, m': Mux, id: Id, keyer: Keyer)
    requires Inv(m, keyer) && id in m.reqs && id in m'.reqs
    requires m' == m.(reqs := m.reqs[id := m'.reqs[id]])
    requires m'.reqs[id].key == m.reqs[id].key && m'.reqs[id].routed == m.reqs[id].routed
    requires CallOk(m', id, keyer)
    ensures Inv(m', keyer)
  {
    forall i | i in m'.reqs ensures CallOk(m', i, keyer) {
      assert CallOk(m, i, keyer);
    }
    forall n | 0 <= n < |m'.fates| ensures FrameOk(m', n) {
      assert FrameOk(m, n);
    }
  }

  lemma RegisterKeeps(m: Mux, id: Id, key: Key, keyer: Keyer)
    requires Inv(m, keyer) && id !in m.reqs
    ensures Inv(RegisterNext(m, id, key), keyer)
  {
    var m' := RegisterNext(m, id, key);
    forall i | i in m'.reqs ensures CallOk(m', i, keyer) {
      if i != id { assert CallOk(m, i, keyer); }
    }
    forall n | 0 <= n < |m'.fates| ensures FrameOk(m', n) {
      assert FrameOk(m, n);
    }
  }

  lemma LeaveCall(m: Mux, id: Id, i: Id, keyer: Keyer)
    requires Inv(m, keyer) && id in m.reqs && m.reqs[id].pc.Leaving? && i in m.reqs
    ensures i in LeaveNext(m, id).reqs && CallOk(LeaveNext(m, id), i, keyer)
    ensures LeaveNext(m, id).reqs[i].key == m.reqs[i].key && LeaveNext(m, id).reqs[i].routed == m.reqs[i].routed
  {
    assert CallOk(m, i, keyer);
    assert CallOk(m, id, keyer);
  }

  lemma LeaveKeeps(m: Mux, id: Id, keyer: Keyer)
    requires Inv(m, keyer) && id in m.reqs && m.reqs[id].pc.Leaving?
    ensures Inv(LeaveNext(m, id), keyer)
  {
    var m' := LeaveNext(m, id);
    forall i | i in m.reqs
      ensures i in m'.reqs && CallOk(m', i, keyer) && m'.reqs[i].key == m.reqs[i].key && m'.reqs[i].routed == m.reqs[i].routed
    {
      LeaveCall(m, id, i, keyer);
    }
    forall n | 0 <= n < |m'.fates| ensures FrameOk(m', n) {
      assert FrameOk(m, n);
    }
  }

  lemma ReceiveKeeps(m: Mux, frame: Frame, keyer: Keyer)
    requires Inv(m, keyer) && m.reader == Idle
    ensures Inv(Next(m, Receive(frame), keyer), keyer)
  {
    var m' := Next(m, Receive(frame), keyer);
    forall i | i in m'.reqs ensures CallOk(m', i, keyer) {
      assert CallOk(m, i, keyer);
    }
    forall n | 0 <= n < |m'.fates| ensures FrameOk(m', n) {
      if n < |m.fates| { assert FrameOk(m, n); }
    }
  }

  lemma LookupKeeps(m: Mux, keyer: Keyer)
    requires Inv(m, keyer) && Enabled(m, Lookup)
    ensures Inv(LookupNext(m, keyer), keyer)
  {
    var m' := LookupNext(m, keyer);
    forall i | i in m'.reqs ensures CallOk(m', i, keyer) {
      assert CallOk(m, i, keyer);
    }
    forall n | 0 <= n < |m'.fates| ensures FrameOk(m', n) {
      assert FrameOk(m, n);
    }
  }

  lemma DeliverKeeps(m: Mux, keyer: Keyer)
    requires Inv(m, keyer) && Enabled(m, Deliver)
    ensures Inv(Next(m, Deliver, keyer), keyer)
  {
    var m' := Next(m, Deliver, keyer);
    forall i | i in m'.reqs ensures CallOk(m', i, keyer) {
      assert CallOk(m, i, keyer);
    }
    forall n | 0 <= n < |m'.fates| ensures FrameOk(m', n) {
      assert FrameOk(m, n);
    }
  }

  lemma HandOffKeeps(m: Mux, keyer: Keyer)
    requires Inv(m, keyer) && Enabled(m, HandOff)
    ensures Inv(Next(m, HandOff, keyer), keyer)
  {
    var m' := Next(m, HandOff, keyer);
    forall i | i in m'.reqs ensures CallOk(m', i, keyer) {
      assert CallOk(m, i, keyer);
    }
    forall n | 0 <= n < |m'.fates| ensures FrameOk(m', n) {
      assert FrameOk(m, n);
      if n in m.handled {
        var i :| 0 <= i < |m.handled| && m.handled[i] == n;
        assert m'.handled[i] == n;
      }
      if n == m.reader.no { assert m'.handled[|m.handled|] == n; }
    }
  }

  lemma StopKeeps(m: Mux, m': Mux, cause: Cause, keyer: Keyer)
    requires Inv(m, keyer) && m' == StopWith(m, cause)
    ensures Inv(m', keyer)
  {
    forall i | i in m'.reqs ensures CallOk(m', i, keyer) {
      assert CallOk(m, i, keyer);
    }
    forall n | 0 <= n < |m'.fates| ensures FrameOk(m', n) {
      assert FrameOk(m, n);
    }
  }

  lemma EndKeeps(m: Mux, keyer: Keyer)
    requires Inv(m, keyer) && m.reader == Idle
    ensures Inv(m.(reader := Ended), keyer)
  {
    var m' := m.(reader := Ended);
    forall i | i in m'.reqs ensures CallOk(m', i, keyer) {
      assert CallOk(m, i, keyer);
    }
    forall n | 0 <= n < |m'.fates| ensures FrameOk(m', n) {
      assert FrameOk(m, n);
    }
  }

  lemma CallerKeeps(m: Mux, s: Step, keyer: Keyer)
    requires Inv(m, keyer) && Enabled(m, s)
    requires s.SendDone? || s.SendFail? || s.TakeResponse? || s.GiveUp? || s.SeeDone?
    ensures Inv(Next(m, s, keyer), keyer)
  {
    assert CallOk(m, s.id, keyer);
    CallStep(m, Next(m, s, keyer), s.id, keyer);
  }

  lemma StepKeeps(m: Mux, s: Step, keyer: Keyer)
    requires Inv(m, keyer) && Enabled(m, s)
    ensures Inv(Next(m, s, keyer), keyer)
  {
    match s
    case Register(id, key) => RegisterKeeps(m, id, key, keyer);
    case SendDone(_) => CallerKeeps(m, s, keyer);
    case SendFail(_) => CallerKeeps(m, s, keyer);
    case TakeResponse(_) => CallerKeeps(m, s, keyer);
    case GiveUp(_, _) => CallerKeeps(m, s, keyer);
    case SeeDone(_) => CallerKeeps(m, s, keyer);
    case Leave(id) => LeaveKeeps(m, id, keyer);
    case Receive(frame) => ReceiveKeeps(m, frame, keyer);
    case Lookup => LookupKeeps(m, keyer);
    case Deliver => DeliverKeeps(m, keyer);
    case HandOff => HandOffKeeps(m, keyer);
    case ReadFail(code) =>
      EndKeeps(m, keyer);
      StopKeeps(m.(reader := Ended), Next(m, s, keyer), ReadError(code), keyer);
    case Close => StopKeeps(m, Next(m, s, keyer), Closed, keyer);
  }

  // ----- runs -----

  ghost predicate Runs(m: Mux, steps: seq<Step>, keyer: Keyer)
    decreases |steps|
  {
    steps == [] || (Enabled(m, steps[0]) && Runs(Next(m, steps[0], keyer), steps[1..], keyer))
  }

  ghost function After(m: Mux, steps: seq<Step>, keyer: Keyer): Mux
    requires Runs(m, steps, keyer)
    decreases |steps|
  {
    if steps == [] then m else After(Next(m, steps[0], keyer), steps[1..], keyer)
  }

  lemma {:induction false} RunKeeps(m: Mux, steps: seq<Step>, keyer: Keyer)
    requires Inv(m, keyer) && Runs(m, steps, keyer)
    ensures Inv(After(m, steps, keyer), keyer)
    decreases |steps|
  {
    if steps != [] {
      StepKeeps(m, steps[0], keyer);
      RunKeeps(Next(m, steps[0], keyer), steps[1..], keyer);
    }
  }

  lemma NewOk(keyer: Keyer)
    ensures Inv(NEW, keyer)
  {
  }

  // ----- what follows in every reachable state -----

  /** A channel receives at most one frame in its life, so the reader's send finds it empty. */
  lemma SendNeverBlocks(steps: seq<Step>, keyer: Keyer)
    requires Runs(NEW, steps, keyer)
    ensures var m := After(NEW, steps, keyer);
            && (m.reader.Holding? ==> m.reader.id in m.reqs && m.reqs[m.reader.id].chan == [])
            && (forall id :: id in m.reqs ==> |m.reqs[id].chan| <= 1)
  {
    NewOk(keyer);
    RunKeeps(NEW, steps, keyer);
    var m := After(NEW, steps, keyer);
    forall id | id in m.reqs ensures |m.reqs[id].chan| <= 1 {
      assert CallOk(m, id, keyer);
    }
    if m.reader.Holding? { assert CallOk(m, m.reader.id, keyer); }
  }

  /** Between frames every received frame has gone either to exactly one call or, once, to
      the unsolicited path. */
  lemma EveryFramePlacedOnce(steps: seq<Step>, keyer: Keyer, n: nat)
    requires Runs(NEW, steps, keyer)
    requires var m := After(NEW, steps, keyer); (m.reader.Idle? || m.reader.Ended?) && n < |m.received|
    ensures var m := After(NEW, steps, keyer);
            && |m.fates| == |m.received| && !m.fates[n].InHand?
            && (forall id :: id in m.reqs ==> (m.reqs[id].routed == Some(n) <==> m.fates[n] == To(id)))
            && (n in m.handled <==> m.fates[n] == Aside)
            && (forall i, j :: 0 <= i < j < |m.handled| ==> m.handled[i] != m.handled[j])
  {
    NewOk(keyer);
    RunKeeps(NEW, steps, keyer);
    var m := After(NEW, steps, keyer);
    assert FrameOk(m, n);
    forall id | id in m.reqs ensures m.reqs[id].routed == Some(n) <==> m.fates[n] == To(id) {
      assert CallOk(m, id, keyer);
    }
  }

  /** A call that returns a response returns a frame routed to it alone, with its own key. */
  lemma ResponseMatchesRequest(steps: seq<Step>, keyer: Keyer, id: Id)
    requires Runs(NEW, steps, keyer)
    requires var m := After(NEW, steps, keyer); id in m.reqs && m.reqs[id].pc.Returned? && m.reqs[id].pc.r.Response?
    ensures var m := After(NEW, steps, keyer); var n := m.reqs[id].pc.r.no;
            && n < |m.received| == |m.fates| && keyer(m.received[n]) == Some(m.reqs[id].key) && m.fates[n] == To(id)
  {
    NewOk(keyer);
    RunKeeps(NEW, steps, keyer);
    assert CallOk(After(NEW, steps, keyer), id, keyer);
  }

  /** Once stopped, the cause never changes: the first is the one every call reports. */
  lemma {:induction false} FirstCauseStays(m: Mux, steps: seq<Step>, keyer: Keyer)
    requires Runs(m, steps, keyer) && m.cause.Some?
    ensures After(m, steps, keyer).cause == m.cause
    decreases |steps|
  {
    if steps != [] {
      assert Next(m, steps[0], keyer).cause == m.cause;
      FirstCauseStays(Next(m, steps[0], keyer), steps[1..], keyer);
    }
  }

  lemma ReportedCauseIsFirst(steps: seq<Step>, keyer: Keyer, id: Id)
    requires Runs(NEW, steps, keyer)
    requires var m := After(NEW, steps, keyer);
             && id in m.reqs && m.reqs[id].pc.Returned?
             && m.reqs[id].pc.r.Failed? && m.reqs[id].pc.r.e.Stopped?
    ensures var m := After(NEW, steps, keyer); m.cause == Some(m.reqs[id].pc.r.e.cause)
  {
    NewOk(keyer);
    RunKeeps(NEW, steps, keyer);
    assert CallOk(After(NEW, steps, keyer), id, keyer);
  }

  // ----- does a live call get its frame? -----

  /** Exactly when no other call's deferred delete has cut it off: then the reader, looking
      up a frame with its key, takes this call. */
  lemma LiveCallFoundIffNotCut(m: Mux, id: Id, keyer: Keyer)
    requires Inv(m, keyer) && Enabled(m, Lookup) && id in m.reqs && Live(m.reqs[id]) && m.reqs[id].routed.None?
    requires keyer(m.received[m.reader.no]) == Some(m.reqs[id].key)
    ensures Next(m, Lookup, keyer).reader == Holding(m.reader.no, id) <==> !m.reqs[id].cut
  {
    assert CallOk(m, id, keyer);
  }

  /** No key is registered while an earlier call with it has yet to return. */
  predicate FreshKey(m: Mux, s: Step)
  {
    s.Register? ==> forall id :: id in m.reqs && m.reqs[id].key == s.key ==> !Live(m.reqs[id])
  }

  ghost predicate FreshRun(m: Mux, steps: seq<Step>, keyer: Keyer)
    requires Runs(m, steps, keyer)
    decreases |steps|
  {
    steps == [] || (FreshKey(m, steps[0]) && FreshRun(Next(m, steps[0], keyer), steps[1..], keyer))
  }

  predicate Uncut(m: Mux)
  {
    && (forall id :: id in m.reqs ==> !m.reqs[id].cut)
    && (forall i, j :: i in m.reqs && j in m.reqs && Live(m.reqs[i]) && Live(m.reqs[j]) && m.reqs[i].key == m.reqs[j].key ==> i == j)
  }

  lemma StepUncut(m: Mux, s: Step, keyer: Keyer)
    requires Inv(m, keyer) && Uncut(m) && Enabled(m, s) && FreshKey(m, s)
    ensures Uncut(Next(m, s, keyer))
  {
    if s.Leave? {
      LeaveUncut(m, s.id, keyer);
    } else {
      SameCalls(m, Next(m, s, keyer));
    }
  }

  lemma LeaveUncut(m: Mux, id: Id, keyer: Keyer)
    requires Inv(m, keyer) && Uncut(m) && id in m.reqs && m.reqs[id].pc.Leaving?
    ensures Uncut(LeaveNext(m, id))
  {
    assert CallOk(m, id, keyer);
    var key := m.reqs[id].key;
    if key in m.pending { assert CallOk(m, m.pending[key], keyer); }
  }

  /** Calls come, but none is cut and none comes back to life. */
  lemma SameCalls(m: Mux, m': Mux)
    requires Uncut(m)
    requires forall i :: i in m.reqs ==> i in m'.reqs && m'.reqs[i].key == m.reqs[i].key && m'.reqs[i].cut == m.reqs[i].cut
                                         && (Live(m'.reqs[i]) ==> Live(m.reqs[i]))
    requires forall i :: i in m'.reqs && i !in m.reqs ==> !m'.reqs[i].cut
    requires forall i, j :: i in m'.reqs && i !in m.reqs && j in m'.reqs && j != i && Live(m'.reqs[i]) && Live(m'.reqs[j]) ==>
               m'.reqs[i].key != m'.reqs[j].key
    ensures Uncut(m')
  {
    forall i, j | i in m'.reqs && j in m'.reqs && Live(m'.reqs[i]) && Live(m'.reqs[j]) && m'.reqs[i].key == m'.reqs[j].key
      ensures i == j
    {
      if i in m.reqs && j in m.reqs { assert m'.reqs[i].key == m.reqs[i].key; }
    }
  }

  lemma {:induction false} RunUncut(m: Mux, steps: seq<Step>, keyer: Keyer)
    requires Inv(m, keyer) && Uncut(m) && Runs(m, steps, keyer) && FreshRun(m, steps, keyer)
    ensures Uncut(After(m, steps, keyer))
    decreases |steps|
  {
    if steps != [] {
      StepKeeps(m, steps[0], keyer);
      StepUncut(m, steps[0], keyer);
      RunUncut(Next(m, steps[0], keyer), steps[1..], keyer);
    }
  }

  /** Without early key reuse every frame matching a live call still without a response
      goes to that call. */
  lemma MatchingFrameReachesCall(steps: seq<Step>, keyer: Keyer, id: Id)
    requires Runs(NEW, steps, keyer) && FreshRun(NEW, steps, keyer)
    requires var m := After(NEW, steps, keyer);
             && Enabled(m, Lookup) && id in m.reqs && Live(m.reqs[id]) && m.reqs[id].routed.None?
             && keyer(m.received[m.reader.no]) == Some(m.reqs[id].key)
    ensures var m := After(NEW, steps, keyer); Next(m, Lookup, keyer).reader == Holding(m.reader.no, id)
  {
    NewOk(keyer);
    RunKeeps(NEW, steps, keyer);
    RunUncut(NEW, steps, keyer);
    LiveCallFoundIffNotCut(After(NEW, steps, keyer), id, keyer);
  }

  lemma Tail(m: Mux, rest: seq<Step>, s: Step, keyer: Keyer)
    requires Enabled(m, s) && Runs(Next(m, s, keyer), rest, keyer)
    ensures Runs(m, [s] + rest, keyer) && After(m, [s] + rest, keyer) == After(Next(m, s, keyer), rest, keyer)
  {
    assert ([s] + rest)[1..] == rest;
  }

  lemma {:induction false} RunsConcat(m: Mux, a: seq<Step>, b: seq<Step>, keyer: Keyer)
    requires Runs(m, a, keyer) && Runs(After(m, a, keyer), b, keyer)
    ensures Runs(m, a + b, keyer) && After(m, a + b, keyer) == After(After(m, a, keyer), b, keyer)
    decreases |a|
  {
    if a == [] {
      assert a + b == b;
    } else {
      RunsConcat(Next(m, a[0], keyer), a[1..], b, keyer);
      assert (a + b)[1..] == a[1..] + b;
    }
  }

  /** Call 1 has its response and is about to run its deferred delete. */
  function Answered(key: Key, f: Frame): Mux
  {
    Mux(map[], map[1 := Req(key, Leaving(Response(0)), [], Some(0), false)], Idle, [f], [To(1)], [], None)
  }

  function Found(key: Key, f: Frame): Mux
  {
    Mux(map[], map[1 := Req(key, Waiting, [], Some(0), false)], Holding(0, 1), [f], [To(1)], [], None)
  }

  lemma FirstFound(keyer: Keyer, key: Key, f: Frame) returns (steps: seq<Step>)
    requires keyer(f) == Some(key)
    ensures Runs(NEW, steps, keyer) && After(NEW, steps, keyer) == Found(key, f)
  {
    var m2 := Mux(map[key := 1], map[1 := Req(key, Waiting, [], None, false)], Idle, [], [], [], None);
    var m3 := Next(m2, Receive(f), keyer);
    assert Next(m3, Lookup, keyer) == Found(key, f);
    Tail(m3, [], Lookup, keyer);
    Tail(m2, [Lookup] + [], Receive(f), keyer);
    steps := [Receive(f)] + ([Lookup] + []);
    var m1 := Next(NEW, Register(1, key), keyer);
    assert Next(m1, SendDone(1), keyer) == m2;
    Tail(m1, steps, SendDone(1), keyer);
    Tail(NEW, [SendDone(1)] + steps, Register(1, key), keyer);
    steps := [Register(1, key)] + ([SendDone(1)] + steps);
  }

  lemma ThenAnswered(keyer: Keyer, key: Key, f: Frame) returns (steps: seq<Step>)
    ensures Runs(Found(key, f), steps, keyer) && After(Found(key, f), steps, keyer) == Answered(key, f)
  {
    var m5 := Next(Found(key, f), Deliver, keyer);
    assert m5.reqs[1].chan == [0] && [0][1..] == [];
    assert Next(m5, TakeResponse(1), keyer).reqs[1] == Answered(key, f).reqs[1];
    assert Next(m5, TakeResponse(1), keyer).reqs == Answered(key, f).reqs;
    Tail(m5, [], TakeResponse(1), keyer);
    Tail(Found(key, f), [TakeResponse(1)] + [], Deliver, keyer);
    steps := [Deliver] + ([TakeResponse(1)] + []);
  }

  lemma FirstAnswered(keyer: Keyer, key: Key, f: Frame) returns (steps: seq<Step>)
    requires keyer(f) == Some(key)
    ensures Runs(NEW, steps, keyer) && After(NEW, steps, keyer) == Answered(key, f)
  {
    var a := FirstFound(keyer, key, f);
    var b := ThenAnswered(keyer, key, f);
    RunsConcat(NEW, a, b, keyer);
    steps := a + b;
  }

  // ----- early reuse, exactly -----

  /** The frame in the reader's hands answers this call, which still waits for one, and
      looking it up finds nobody. */
  ghost predicate Lost(m: Mux, id: Id, keyer: Keyer)
  {
    && Enabled(m, Lookup) && id in m.reqs && Live(m.reqs[id]) && m.reqs[id].routed.None?
    && keyer(m.received[m.reader.no]) == Some(m.reqs[id].key) && Next(m, Lookup, keyer).reader == Passing(m.reader.no)
  }

  ghost predicate Loses(m: Mux, id: Id, steps: seq<Step>, keyer: Keyer)
  {
    Runs(m, steps, keyer) && Lost(After(m, steps, keyer), id, keyer)
  }

  /** The call has its frame, is over, or holds its key with nobody left to delete it. */
  predicate Secure(m: Mux, id: Id)
  {
    id in m.reqs && (
      var r := m.reqs[id];
      r.routed.Some? || !Live(r) || (!r.cut && forall j :: j in m.reqs && j != id && m.reqs[j].key == r.key ==> !Live(m.reqs[j])))
  }

  lemma SecureStays(m: Mux, id: Id, s: Step, keyer: Keyer)
    requires Inv(m, keyer) && Secure(m, id) && Enabled(m, s)
    ensures Secure(Next(m, s, keyer), id)
  {
    match s
    case Register(i, key) => RegisterSecure(m, id, i, key, keyer);
    case Leave(i) => LeaveSecure(m, id, i, keyer);
    case Lookup => assert CallOk(m, id, keyer); StillSecure(m, LookupNext(m, keyer), id);
    case _ => StillSecure(m, Next(m, s, keyer), id);
  }

  lemma RegisterSecure(m: Mux, id: Id, i: Id, key: Key, keyer: Keyer)
    requires Inv(m, keyer) && Secure(m, id) && i !in m.reqs
    ensures Secure(RegisterNext(m, i, key), id)
  {
    assert CallOk(m, id, keyer);
  }

  lemma LeaveSecure(m: Mux, id: Id, i: Id, keyer: Keyer)
    requires Inv(m, keyer) && Secure(m, id) && i in m.reqs && m.reqs[i].pc.Leaving?
    ensures Secure(LeaveNext(m, i), id)
  {
    assert CallOk(m, id, keyer);
    assert CallOk(m, i, keyer);
  }

  /** No call comes, is cut, comes back to life or loses its frame. */
  lemma StillSecure(m: Mux, m': Mux, id: Id)
    requires Secure(m, id) && m'.reqs.Keys == m.reqs.Keys
    requires forall i :: i in m.reqs ==> Later(m.reqs[i], m'.reqs[i])
    ensures Secure(m', id)
  {
    assert Later(m.reqs[id], m'.reqs[id]);
    forall j | j in m'.reqs && j != id && !Live(m.reqs[j]) ensures !Live(m'.reqs[j]) {
      assert Later(m.reqs[j], m'.reqs[j]);
    }
  }

  predicate Later(r: Req, r': Req)
  {
    r'.key == r.key && (r.routed.Some? ==> r'.routed.Some?) && r'.cut == r.cut && (Live(r') ==> Live(r))
  }

  lemma {:induction false} SecureNeverLoses(m: Mux, id: Id, steps: seq<Step>, keyer: Keyer)
    requires Inv(m, keyer) && Secure(m, id)
    ensures !Loses(m, id, steps, keyer)
    decreases |steps|
  {
    if Runs(m, steps, keyer) {
      if steps == [] {
        assert CallOk(m, id, keyer);
      } else {
        StepKeeps(m, steps[0], keyer);
        SecureStays(m, id, steps[0], keyer);
        SecureNeverLoses(Next(m, steps[0], keyer), id, steps[1..], keyer);
      }
    }
  }

  /** A live call still without a frame, off the pending map. */
  predicate CutOff(m: Mux, id: Id, key: Key)
  {
    id in m.reqs && Live(m.reqs[id]) && m.reqs[id].routed.None? && m.reqs[id].key == key && key !in m.pending
  }

  lemma DrainStep(m: Mux, id: Id, key: Key, s: Step, keyer: Keyer)
    requires Inv(m, keyer) && CutOff(m, id, key) && Enabled(m, s) && (s.Lookup? || s.Deliver? || s.HandOff?)
    ensures Inv(Next(m, s, keyer), keyer) && CutOff(Next(m, s, keyer), id, key)
  {
    StepKeeps(m, s, keyer);
    if s.Deliver? { assert CallOk(m, m.reader.id, keyer); }
  }

  /** The reader places the frame in its hands. */
  lemma Placed(m: Mux, id: Id, key: Key, keyer: Keyer) returns (steps: seq<Step>)
    requires Inv(m, keyer) && CutOff(m, id, key) && (m.reader.Holding? || m.reader.Passing?)
    ensures Runs(m, steps, keyer) && var m' := After(m, steps, keyer);
            Inv(m', keyer) && CutOff(m', id, key) && m'.reader == Idle
  {
    var s := if m.reader.Holding? then Deliver else HandOff;
    DrainStep(m, id, key, s, keyer);
    Tail(m, [], s, keyer);
    steps := [s] + [];
  }

  lemma Drained(m: Mux, id: Id, key: Key, keyer: Keyer) returns (steps: seq<Step>)
    requires Inv(m, keyer) && CutOff(m, id, key) && m.reader != Ended
    ensures Runs(m, steps, keyer) && var m' := After(m, steps, keyer);
            Inv(m', keyer) && CutOff(m', id, key) && m'.reader == Idle
  {
    if m.reader == Idle {
      steps := [];
    } else if m.reader.Got? {
      DrainStep(m, id, key, Lookup, keyer);
      var rest := Placed(Next(m, Lookup, keyer), id, key, keyer);
      Tail(m, rest, Lookup, keyer);
      steps := [Lookup] + rest;
    } else {
      steps := Placed(m, id, key, keyer);
    }
  }

  /** A call off the pending map loses the next frame that answers it. */
  lemma CutOffLoses(m: Mux, id: Id, key: Key, f: Frame, keyer: Keyer) returns (steps: seq<Step>)
    requires Inv(m, keyer) && CutOff(m, id, key) && m.reader != Ended && keyer(f) == Some(key)
    ensures Loses(m, id, steps, keyer)
  {
    var drain := Drained(m, id, key, keyer);
    var m' := After(m, drain, keyer);
    Tail(m', [], Receive(f), keyer);
    RunsConcat(m, drain, [Receive(f)] + [], keyer);
    steps := drain + ([Receive(f)] + []);
  }

  /** The other call on the key runs its deferred delete. */
  lemma OtherLeaves(m: Mux, id: Id, other: Id, keyer: Keyer) returns (steps: seq<Step>)
    requires Inv(m, keyer) && id in m.reqs && other in m.reqs && other != id && Live(m.reqs[other])
    requires Live(m.reqs[id]) && m.reqs[id].routed.None? && m.reqs[other].key == m.reqs[id].key
    ensures Runs(m, steps, keyer) && var m' := After(m, steps, keyer);
            Inv(m', keyer) && CutOff(m', id, m.reqs[id].key) && m'.reader == m.reader
    decreases if m.reqs[other].pc.Leaving? then 0 else 1
  {
    var s := match m.reqs[other].pc
             case Sending => SendFail(other)
             case Waiting => GiveUp(other, TimedOut)
             case Leaving(_) => Leave(other)
             case Returned(_) => Close;
    StepKeeps(m, s, keyer);
    var rest := [];
    if !s.Leave? { rest := OtherLeaves(Next(m, s, keyer), id, other, keyer); }
    Tail(m, rest, s, keyer);
    steps := [s] + rest;
  }

  lemma NotFreshLoses(m: Mux, id: Id, key: Key, other: Id, f: Frame, keyer: Keyer) returns (steps: seq<Step>)
    requires Inv(m, keyer) && id !in m.reqs && key !in m.pending && m.reader != Ended && keyer(f) == Some(key)
    requires other in m.reqs && m.reqs[other].key == key && Live(m.reqs[other])
    ensures Loses(Next(m, Register(id, key), keyer), id, steps, keyer)
  {
    var m1 := Next(m, Register(id, key), keyer);
    RegisterKeeps(m, id, key, keyer);
    var a := OtherLeaves(m1, id, other, keyer);
    var b := CutOffLoses(After(m1, a, keyer), id, key, f, keyer);
    RunsConcat(m1, a, b, keyer);
    steps := a + b;
  }

  lemma FreshIsSecure(m: Mux, id: Id, key: Key, keyer: Keyer)
    requires id !in m.reqs && key !in m.pending && FreshKey(m, Register(id, key))
    ensures Secure(Next(m, Register(id, key), keyer), id)
  {
  }

  /** A frame can be lost only while the reader runs, and answers the call's own key. */
  lemma {:induction false} LosingReads(m: Mux, id: Id, steps: seq<Step>, keyer: Keyer) returns (f: Frame)
    requires id in m.reqs && Loses(m, id, steps, keyer)
    ensures m.reader != Ended && keyer(f) == Some(m.reqs[id].key)
    decreases |steps|
  {
    if steps == [] {
      f := m.received[m.reader.no];
    } else {
      f := LosingReads(Next(m, steps[0], keyer), id, steps[1..], keyer);
    }
  }

  ghost predicate CanLose(m: Mux, id: Id, keyer: Keyer) { exists steps :: Loses(m, id, steps, keyer) }

  /** A call that registers can lose a frame that answers it, whatever else happens, exactly
      when an earlier call with its key has yet to return, as long as frames still come and
      some frame has the key. */
  lemma LosesIffReused(m: Mux, id: Id, key: Key, keyer: Keyer)
    requires Inv(m, keyer) && id !in m.reqs && key !in m.pending
    ensures CanLose(Next(m, Register(id, key), keyer), id, keyer)
            <==> !FreshKey(m, Register(id, key)) && m.reader != Ended && exists f :: keyer(f) == Some(key)
  {
    var m1 := Next(m, Register(id, key), keyer);
    RegisterKeeps(m, id, key, keyer);
    forall steps | Loses(m1, id, steps, keyer)
      ensures !FreshKey(m, Register(id, key)) && m.reader != Ended && exists f :: keyer(f) == Some(key)
    {
      var f := LosingReads(m1, id, steps, keyer);
      if FreshKey(m, Register(id, key)) {
        FreshIsSecure(m, id, key, keyer);
        SecureNeverLoses(m1, id, steps, keyer);
      }
    }
    if !FreshKey(m, Register(id, key)) && m.reader != Ended {
      forall f | keyer(f) == Some(key) ensures CanLose(m1, id, keyer) {
        var other :| other in m.reqs && m.reqs[other].key == key && Live(m.reqs[other]);
        var steps := NotFreshLoses(m, id, key, other, f, keyer);
      }
    }
  }

  /** It happens: call 2 registers the key of a call that has its response but has not
      returned; that call's deferred delete takes call 2 off, and the frame that answers
      call 2 finds nobody. */
  lemma EarlyReuseLosesAFrame(keyer: Keyer, key: Key, f: Frame) returns (steps: seq<Step>)
    requires keyer(f) == Some(key)
    ensures Loses(NEW, 2, steps, keyer)
  {
    var a := FirstAnswered(keyer, key, f);
    NewOk(keyer);
    RunKeeps(NEW, a, keyer);
    var m := Answered(key, f);
    var b := NotFreshLoses(m, 2, key, 1, f, keyer);
    Tail(m, b, Register(2, key), keyer);
    RunsConcat(NEW, a, [Register(2, key)] + b, keyer);
    steps := a + ([Register(2, key)] + b);
  }
}
