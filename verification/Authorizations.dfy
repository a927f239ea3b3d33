/** The demo issuer's pipeline as a flow (examples/flowdemo/authflow.go, flow/flow.go): the
    ledger's exchanges move as the transaction manager moves its stages. */
module Authorizations {
  import opened Wrappers
  import F = Flows
  import FR = FlowRuns
  import L = Ledgers

  // ----- the pipeline -----

  const PARSE: F.Stage := F.Stage("parse", false, false)
  const RISK: F.Stage := F.Stage("risk", false, false)
  const ROUTE: F.Stage := F.Stage("route", false, false)
  const RESERVE: F.Stage := F.Stage("reserve", true, true)
  const POST: F.Stage := F.Stage("postauth", false, false)

  function Network(g: F.Group): F.Stage { F.Stage("net:" + g, false, false) }

  const ENTRY: seq<F.Stage> := [PARSE, RISK, ROUTE]

  function GroupStages(g: F.Group): seq<F.Stage> { [Network(g), RESERVE, POST] }

  const PIPELINE: F.Flow := F.Flow(
    map["authorize" := ENTRY, "visa" := GroupStages("visa"), "mastercard" := GroupStages("mastercard")], "authorize", 1024)

  /** The network of a card, by its first digit. */
  function RouteOf(pan: L.Pan): Option<F.Group>
  {
    if pan == "" then None else if pan[0] == '4' then Some("visa") else if pan[0] == '5' then Some("mastercard") else None
  }

  /** How one exchange's stages behave: whether its hold finds the funds, and whether its
      context is cancelled after so many calls, is decided by everyone else. */
  datatype Fate = Fate(req: L.Request, rules: L.Rules, funds: bool, cancelled: nat -> bool)

  const PASS: F.Reply := F.Reply(None, F.Skip, false, None, None)
  const DECLINE: F.Reply := F.Reply(None, F.Skip, true, Some(F.StageError(0)), None)

  function Reply(x: Fate, st: F.Stage): F.Reply
  {
    if st == PARSE then if L.Malformed(x.req) then DECLINE else PASS
    else if st == RISK then if x.req.pan in x.rules.blocked then DECLINE else PASS
    else if st == ROUTE then
      if RouteOf(x.req.pan).None? then DECLINE else PASS.(action := F.Continue([RouteOf(x.req.pan).value]))
    else if st == RESERVE then if x.funds then PASS.(action := F.Continue([])) else DECLINE
    else if st == POST && x.req.pan in x.rules.flaky then PASS.(err := Some(F.StageError(1)))
    else PASS
  }

  function WorldOf(x: Fate): F.World
  {
    F.World((calls, st) => Reply(x, st), calls => if x.cancelled(|calls|) then Some(0) else None, (calls, st) => None)
  }

  const NEW: F.Exchange := F.Exchange(false, None, None)

  // ----- the exchange -----

  /** The exchange as the ledger's machine moves it: cancelled, or on by one stage. */
  function Moved(x: Fate, e: L.Exchange, i: nat): L.Exchange
    requires !e.pc.Finished?
  {
    if x.cancelled(i) then e.(pc := L.Aborting)
    else
      var balance := if x.funds then e.req.amount else e.req.amount - 1;
      L.Advanced(L.Books(map[e.req.pan := balance], map[]), e, x.rules).1
  }

  predicate InStages(e: L.Exchange) { !e.pc.Finished? && e.pc != L.Committing && e.pc != L.Aborting }

  /** What an exchange does next depends on the books only through whether its hold finds
      the funds. */
  lemma MovedIsAdvanced(x: Fate, b: L.Books, e: L.Exchange, i: nat)
    requires InStages(e) && L.ExchangeOk(e) && !x.cancelled(i) && x.funds == (L.Balance(b.available, e.req.pan) >= e.req.amount)
    ensures L.Advanced(b, e, x.rules).1 == Moved(x, e, i)
    ensures L.Advanced(b, e, x.rules).0 == if !e.joined && Moved(x, e, i).joined then L.Held(b, e.req.pan, e.req.amount) else b
  {
  }

  function Position(e: L.Exchange): nat
  {
    match e.pc
    case Parse => 0 case Risk => 1 case Route => 2 case Network => 3 case Reserve => 4 case PostAuth => 5 case _ => 6
  }

  /** The exchange moved through its stages, from stage i on, until its second phase. */
  function Settling(x: Fate, e: L.Exchange): (r: L.Exchange)
    requires !e.pc.Finished?
    ensures !r.pc.Finished? && !InStages(r)
    decreases 6 - Position(e)
  {
    if InStages(e) then Settling(x, Moved(x, e, Position(e))) else e
  }

  // ----- stage by stage -----

  function WorkAt(e: L.Exchange): seq<F.Stage>
  {
    if Position(e) < 3 || RouteOf(e.req.pan).None? then ENTRY else ENTRY + GroupStages(RouteOf(e.req.pan).value)
  }

  function JoinedAt(e: L.Exchange, routed: bool): seq<F.Stage>
  {
    (if routed then [ROUTE] else []) + (if e.joined then [RESERVE] else [])
  }

  /** The prepare loop stands where the exchange stands. */
  ghost predicate Follows(p: F.Pass, e: L.Exchange)
  {
    && !p.over && p.err.None? && !p.ex.aborted && |p.calls| == Position(e) && p.work == WorkAt(e)
    && p.joined == JoinedAt(e, Position(e) >= 3)
    && (Position(e) >= 3 ==> RouteOf(e.req.pan).Some?) && (e.pc == L.PostAuth || e.pc == L.Committing <==> e.joined)
    && e.pc != L.Aborting && !e.pc.Finished?
  }

  /** The loop has ended in an abort, and so has the exchange. */
  ghost predicate Fails(p: F.Pass, e: L.Exchange)
  {
    && e.pc == L.Aborting && (p.err.Some? || p.ex.aborted)
    && (p.joined == JoinedAt(e, true) || p.joined == JoinedAt(e, false))
  }

  lemma Routed(pan: L.Pan)
    requires RouteOf(pan).Some?
    ensures F.Resolve(PIPELINE, ENTRY, [RouteOf(pan).value]) == Ok(ENTRY + GroupStages(RouteOf(pan).value))
  {
    var g := RouteOf(pan).value;
    assert [g][1..] == [];
    assert g in PIPELINE.groups && PIPELINE.groups[g] == GroupStages(g);
  }

  /** The loop and the exchange after one turn. */
  ghost predicate Together(q: F.Pass, e: L.Exchange) { if q.over then Fails(q, e) else Follows(q, e) }

  lemma TurnCancelled(x: Fate, p: F.Pass, e: L.Exchange)
    requires InStages(e) && Follows(p, e) && x.cancelled(Position(e))
    ensures Together(F.Turn(PIPELINE, WorldOf(x), p, Position(e)), Moved(x, e, Position(e)))
  {
  }

  lemma EntryTurn(x: Fate, p: F.Pass, e: L.Exchange)
    requires InStages(e) && Position(e) < 3 && Follows(p, e) && e.req == x.req && !x.cancelled(Position(e))
    ensures Together(F.Turn(PIPELINE, WorldOf(x), p, Position(e)), Moved(x, e, Position(e)))
  {
    if e.pc == L.Route && RouteOf(x.req.pan).Some? { Routed(x.req.pan); }
  }

  lemma GroupTurn(x: Fate, p: F.Pass, e: L.Exchange)
    requires InStages(e) && Position(e) >= 3 && Follows(p, e) && e.req == x.req && !x.cancelled(Position(e))
    ensures Together(F.Turn(PIPELINE, WorldOf(x), p, Position(e)), Moved(x, e, Position(e)))
  {
    StagesApart(RouteOf(x.req.pan).value);
  }

  lemma StagesApart(g: F.Group)
    ensures Network(g) != PARSE && Network(g) != RISK && Network(g) != ROUTE && Network(g) != RESERVE && Network(g) != POST
  {
    assert Network(g).name[0] == 'n';
  }

  lemma TurnFollows(x: Fate, p: F.Pass, e: L.Exchange)
    requires InStages(e) && Follows(p, e) && e.req == x.req
    ensures Position(e) < |p.work| && Moved(x, e, Position(e)).req == x.req
    ensures Together(F.Turn(PIPELINE, WorldOf(x), p, Position(e)), Moved(x, e, Position(e)))
  {
    if x.cancelled(Position(e)) { TurnCancelled(x, p, e); }
    else if Position(e) < 3 { EntryTurn(x, p, e); }
    else { GroupTurn(x, p, e); }
  }

  ghost predicate Ends(q: F.Pass, r: L.Exchange) { if r.pc == L.Committing then Follows(q, r) else Fails(q, r) }

  lemma {:induction false} PassFollows(x: Fate, p: F.Pass, e: L.Exchange)
    requires Follows(p, e) && e.req == x.req
    ensures Ends(F.PrepareFrom(PIPELINE, WorldOf(x), p, Position(e)), Settling(x, e))
    decreases 6 - Position(e)
  {
    if InStages(e) {
      TurnFollows(x, p, e);
      var q, e' := F.Turn(PIPELINE, WorldOf(x), p, Position(e)), Moved(x, e, Position(e));
      if !q.over { PassFollows(x, q, e'); }
      AfterTurn(x, PIPELINE, WorldOf(x), p, e, q, e');
    }
  }

  lemma AfterTurn(x: Fate, f: F.Flow, w: F.World, p: F.Pass, e: L.Exchange, q: F.Pass, e': L.Exchange)
    requires InStages(e) && !p.over && Position(e) < |p.work| && Together(q, e')
    requires q == F.Turn(f, w, p, Position(e)) && e' == Moved(x, e, Position(e))
    requires !q.over ==> Position(e') == Position(e) + 1 && Ends(F.PrepareFrom(f, w, q, Position(e')), Settling(x, e'))
    ensures Ends(F.PrepareFrom(f, w, p, Position(e)), Settling(x, e))
  {
    assert Settling(x, e) == Settling(x, e');
    assert F.PrepareFrom(f, w, p, Position(e)) == if q.over then q else F.PrepareFrom(f, w, q, Position(e) + 1);
  }

  // ----- the whole run -----

  /** What the second phase calls: the hold is captured, released, or was never made. */
  function Settlement(e: L.Exchange): seq<F.Call>
  {
    if !e.joined then [] else if e.pc == L.Committing then [F.Commit(RESERVE)] else [F.Abort(RESERVE)]
  }

  lemma OneStage(st: F.Stage)
    ensures F.Commits([st]) == (if st.committer then [F.Commit(st)] else [])
    ensures F.Aborts([st]) == (if st.aborter then [F.Abort(st)] else [])
  {
    assert [st][..0] == [];
    assert F.Commits([]) == [] && F.Aborts([]) == [];
  }

  lemma SecondPhase(e: L.Exchange, routed: bool)
    ensures F.Commits(JoinedAt(e, routed)) == (if e.joined then [F.Commit(RESERVE)] else [])
    ensures F.Aborts(JoinedAt(e, routed)) == (if e.joined then [F.Abort(RESERVE)] else [])
  {
    OneStage(ROUTE);
    OneStage(RESERVE);
    if routed && e.joined {
      var j := JoinedAt(e, routed);
      assert j == [ROUTE, RESERVE] && j[..1] == [ROUTE];
    } else {
      assert [] + [RESERVE] == [RESERVE] && [ROUTE] + [] == [ROUTE];
    }
  }

  /** A finished loop, and the second phase it leads to. */
  lemma SettledAs(w: F.World, p: F.Pass, e: L.Exchange)
    requires Ends(p, e)
    ensures var r := F.Finished(w, p, None, map[]);
            && r.calls == p.calls + Settlement(e) && r.joined == p.joined && (e.joined <==> RESERVE in p.joined)
            && (r.events == [F.Begin, F.Committed] <==> e.pc == L.Committing)
  {
    var routed := p.joined == JoinedAt(e, true);
    SecondPhase(e, routed);
    HoldsReserve(e, routed);
  }

  lemma HoldsReserve(e: L.Exchange, routed: bool)
    ensures RESERVE in JoinedAt(e, routed) <==> e.joined
  {
  }

  lemma PreparesFirst(f: F.Flow, w: F.World, ex: F.Exchange)
    requires f.entry in f.groups
    ensures var p := F.Prepared(f, w, ex); forall j :: 0 <= j < |p.calls| ==> p.calls[j].Prepare?
  {
    FR.PreparedOk(f, w, ex);
  }

  lemma Loops(x: Fate)
    ensures var p, e := F.Prepared(PIPELINE, WorldOf(x), NEW), Settling(x, L.Exchange(x.req, L.Parse, false));
            Ends(p, e)
  {
    PassFollows(x, F.Pass(ENTRY, [], [], NEW, None, false), L.Exchange(x.req, L.Parse, false));
  }

  /** The ledger's machine is the transaction manager's: for every request, and whatever
      the funds and the cancellations, the manager's second phase settles the hold as the
      exchange's second phase does, and commits exactly when the exchange does. */
  lemma ExchangeIsRun(x: Fate) returns (n: nat)
    ensures var r := F.RunSpec(PIPELINE, WorldOf(x), NEW, None, map[]);
            var e := Settling(x, L.Exchange(x.req, L.Parse, false));
            && n <= |r.calls| && (forall j :: 0 <= j < n ==> r.calls[j].Prepare?) && r.calls[n..] == Settlement(e)
            && (r.events == [F.Begin, F.Committed] <==> e.pc == L.Committing)
            && (e.joined <==> RESERVE in r.joined)
  {
    var p, e := F.Prepared(PIPELINE, WorldOf(x), NEW), Settling(x, L.Exchange(x.req, L.Parse, false));
    Loops(x);
    SettledAs(WorldOf(x), p, e);
    PreparesFirst(PIPELINE, WorldOf(x), NEW);
    n := |p.calls|;
    assert (p.calls + Settlement(e))[n..] == Settlement(e);
  }
}
