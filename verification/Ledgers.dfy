/** The demo issuer's ledger (examples/flowdemo/authflow.go): many authorisations running
    their two-phase pipeline at once over one set of balances. */
module Ledgers {

  type Pan = string

  /** A Go map of int64: a missing key reads as zero. */
  function Balance(m: map<Pan, int>, pan: Pan): int { if pan in m then m[pan] else 0 }

  datatype Books = Books(available: map<Pan, int>, held: map<Pan, int>)

  function Held(b: Books, pan: Pan, amt: int): Books
  {
    Books(b.available[pan := Balance(b.available, pan) - amt], b.held[pan := Balance(b.held, pan) + amt])
  }

  function Captured(b: Books, pan: Pan, amt: int): Books
  {
    b.(held := b.held[pan := Balance(b.held, pan) - amt])
  }

  function Released(b: Books, pan: Pan, amt: int): Books
  {
    Books(b.available[pan := Balance(b.available, pan) + amt], b.held[pan := Balance(b.held, pan) - amt])
  }

  class Ledger {
    var available: map<Pan, int>
    var held: map<Pan, int>

    function View(): Books
      reads this
    {
      Books(available, held)
    }

    constructor ()
      ensures View() == Books(map[], map[])
    {
      available, held := map[], map[];
    }

    /** Hold reserves the amount, or leaves the books untouched where the balance is short. */
    method Hold(pan: Pan, amt: int) returns (ok: bool)
      modifies this
      ensures ok <==> Balance(old(available), pan) >= amt
      ensures View() == if ok then Held(old(View()), pan, amt) else old(View())
    {
      var have := if pan in available then available[pan] else 0;
      if have < amt { return false; }
      available := available[pan := have - amt];
      held := held[pan := (if pan in held then held[pan] else 0) + amt];
      return true;
    }

    method Capture(pan: Pan, amt: int)
      modifies this`held
      ensures View() == Captured(old(View()), pan, amt)
    {
      held := held[pan := (if pan in held then held[pan] else 0) - amt];
    }

    method Release(pan: Pan, amt: int)
      modifies this
      ensures View() == Released(old(View()), pan, amt)
    {
      held := held[pan := (if pan in held then held[pan] else 0) - amt];
      available := available[pan := (if pan in available then available[pan] else 0) + amt];
    }
  }

  // ----- exchanges -----

  /** The next thing an exchange does: a stage of its pipeline, or its second phase. */
  datatype Pc = Parse | Risk | Route | Network | Reserve | PostAuth | Committing | Aborting | Finished(committed: bool)

  datatype Request = Request(mti: string, pan: Pan, amount: int)

  /** `joined`: its reserve stage holds funds for it. */
  datatype Exchange = Exchange(req: Request, pc: Pc, joined: bool)

  datatype Issuer = Issuer(books: Books, exchanges: seq<Exchange>)

  /** The cards the risk stage declines, and those whose post-auth step fails. */
  datatype Rules = Rules(blocked: set<Pan>, flaky: set<Pan>)

  datatype Step = Arrive(req: Request) | Advance(i: nat) | Cancel(i: nat)

  predicate Enabled(s: Issuer, st: Step)
  {
    match st
    case Arrive(_) => true
    case Advance(i) => i < |s.exchanges| && !s.exchanges[i].pc.Finished?
    case Cancel(i) =>
      i < |s.exchanges| && !s.exchanges[i].pc.Finished? && s.exchanges[i].pc != Committing && s.exchanges[i].pc != Aborting
  }

  predicate Malformed(r: Request) { r.mti != "0200" || r.pan == "" || r.amount <= 0 }

  /** What a stage, or the second phase, of one exchange does to it and to the books. */
  function Advanced(b: Books, e: Exchange, rules: Rules): (Books, Exchange)
    requires !e.pc.Finished?
  {
    var pan, amt := e.req.pan, e.req.amount;
    match e.pc
    case Parse => (b, e.(pc := if Malformed(e.req) then Aborting else Risk))
    case Risk => (b, e.(pc := if pan in rules.blocked then Aborting else Route))
    case Route => (b, e.(pc := if pan != "" && (pan[0] == '4' || pan[0] == '5') then Network else Aborting))
    case Network => (b, e.(pc := Reserve))
    case Reserve =>
      if Balance(b.available, pan) < amt then (b, e.(pc := Aborting))
      else (Held(b, pan, amt), e.(pc := PostAuth, joined := true))
    case PostAuth => (b, e.(pc := if pan in rules.flaky then Aborting else Committing))
    case Committing =>
      (if e.joined then Captured(b, pan, amt) else b, e.(pc := Finished(true)))
    case Aborting =>
      (if e.joined then Released(b, pan, amt) else b, e.(pc := Finished(false)))
  }

  function Next(s: Issuer, st: Step, rules: Rules): Issuer
    requires Enabled(s, st)
  {
    match st
    case Arrive(req) => s.(exchanges := s.exchanges + [Exchange(req, Parse, false)])
    case Advance(i) =>
      (var r := Advanced(s.books, s.exchanges[i], rules); Issuer(r.0, s.exchanges[i := r.1]))
    case Cancel(i) => s.(exchanges := s.exchanges[i := s.exchanges[i].(pc := Aborting)])
  }

  // ----- sums over exchanges -----

  /** What an exchange keeps reserved, and what it took for good. */
  function Reserved(e: Exchange, pan: Pan): int
  {
    if e.req.pan == pan && e.joined && !e.pc.Finished? then e.req.amount else 0
  }

  function Taken(e: Exchange, pan: Pan): int
  {
    if e.req.pan == pan && e.joined && e.pc == Finished(true) then e.req.amount else 0
  }

  function TotalReserved(es: seq<Exchange>, pan: Pan): int
  {
    if es == [] then 0 else TotalReserved(es[..|es| - 1], pan) + Reserved(es[|es| - 1], pan)
  }

  function TotalTaken(es: seq<Exchange>, pan: Pan): int
  {
    if es == [] then 0 else TotalTaken(es[..|es| - 1], pan) + Taken(es[|es| - 1], pan)
  }

  lemma {:induction false} TotalsUpdate(es: seq<Exchange>, i: nat, e: Exchange, pan: Pan)
    requires i < |es|
    ensures TotalReserved(es[i := e], pan) == TotalReserved(es, pan) - Reserved(es[i], pan) + Reserved(e, pan)
    ensures TotalTaken(es[i := e], pan) == TotalTaken(es, pan) - Taken(es[i], pan) + Taken(e, pan)
  {
    var before := es[..|es| - 1];
    if i < |es| - 1 {
      TotalsUpdate(before, i, e, pan);
      assert es[i := e][..|es| - 1] == before[i := e];
    } else {
      assert es[i := e][..|es| - 1] == before;
    }
  }

  lemma TotalsSnoc(es: seq<Exchange>, e: Exchange, pan: Pan)
    ensures TotalReserved(es + [e], pan) == TotalReserved(es, pan) + Reserved(e, pan)
    ensures TotalTaken(es + [e], pan) == TotalTaken(es, pan) + Taken(e, pan)
  {
    assert (es + [e])[..|es|] == es;
  }

  // ----- the invariant -----

  /** An exchange past parsing has a positive amount; funds are held from the reserve stage
      on, and a commit implies they were. */
  predicate ExchangeOk(e: Exchange)
  {
    && (e.joined ==> e.req.amount > 0)
    && (e.joined ==> e.pc == PostAuth || e.pc == Committing || e.pc == Aborting || e.pc.Finished?)
    && (e.pc == PostAuth || e.pc == Committing || e.pc == Finished(true) ==> e.joined)
    && (e.pc == Risk || e.pc == Route || e.pc == Network || e.pc == Reserve ==> e.req.amount > 0)
  }

  ghost predicate BooksOk(s: Issuer, seeded: map<Pan, int>, pan: Pan)
  {
    && Balance(s.books.available, pan) >= 0
    && Balance(s.books.held, pan) == TotalReserved(s.exchanges, pan)
    && Balance(s.books.available, pan) + Balance(s.books.held, pan) + TotalTaken(s.exchanges, pan) == Balance(seeded, pan)
  }

  ghost predicate Inv(s: Issuer, seeded: map<Pan, int>)
  {
    && (forall i :: 0 <= i < |s.exchanges| ==> ExchangeOk(s.exchanges[i]))
    && forall pan :: BooksOk(s, seeded, pan)
  }

  function Opened(seeded: map<Pan, int>): Issuer { Issuer(Books(seeded, map[]), []) }

  lemma OpenedOk(seeded: map<Pan, int>)
    requires forall pan :: pan in seeded ==> seeded[pan] >= 0
    ensures Inv(Opened(seeded), seeded)
  {
  }

  /** One exchange's move changes the books by exactly the change in what it reserves and
      has taken. */
  lemma MoveBalances(b: Books, e: Exchange, rules: Rules, pan: Pan)
    requires !e.pc.Finished? && ExchangeOk(e) && Balance(b.available, e.req.pan) >= 0
    ensures var (b', e') := Advanced(b, e, rules);
            && ExchangeOk(e')
            && Balance(b'.held, pan) - Balance(b.held, pan) == Reserved(e', pan) - Reserved(e, pan)
            && Balance(b'.available, pan) - Balance(b.available, pan)
               == Reserved(e, pan) + Taken(e, pan) - Reserved(e', pan) - Taken(e', pan)
            && (pan == e.req.pan ==> Balance(b'.available, pan) >= 0)
  {
  }

  lemma AdvanceKeeps(s: Issuer, i: nat, seeded: map<Pan, int>, rules: Rules)
    requires Inv(s, seeded) && Enabled(s, Advance(i))
    ensures Inv(Next(s, Advance(i), rules), seeded)
  {
    var s' := Next(s, Advance(i), rules);
    var e' := Advanced(s.books, s.exchanges[i], rules).1;
    assert BooksOk(s, seeded, s.exchanges[i].req.pan);
    forall pan ensures BooksOk(s', seeded, pan) {
      assert BooksOk(s, seeded, pan);
      MoveBalances(s.books, s.exchanges[i], rules, pan);
      TotalsUpdate(s.exchanges, i, e', pan);
    }
    MoveBalances(s.books, s.exchanges[i], rules, "");
  }

  lemma StepKeeps(s: Issuer, st: Step, seeded: map<Pan, int>, rules: Rules)
    requires Inv(s, seeded) && Enabled(s, st)
    ensures Inv(Next(s, st, rules), seeded)
  {
    match st
    case Arrive(req) =>
      var s' := Next(s, st, rules);
      forall pan ensures BooksOk(s', seeded, pan) {
        assert BooksOk(s, seeded, pan);
        TotalsSnoc(s.exchanges, Exchange(req, Parse, false), pan);
      }
    case Advance(i) => AdvanceKeeps(s, i, seeded, rules);
    case Cancel(i) =>
      var s' := Next(s, st, rules);
      forall pan ensures BooksOk(s', seeded, pan) {
        assert BooksOk(s, seeded, pan);
        TotalsUpdate(s.exchanges, i, s.exchanges[i].(pc := Aborting), pan);
      }
  }

  // ----- whole runs -----

  ghost predicate Runs(s: Issuer, steps: seq<Step>, rules: Rules)
    decreases |steps|
  {
    steps == [] || (Enabled(s, steps[0]) && Runs(Next(s, steps[0], rules), steps[1..], rules))
  }

  ghost function After(s: Issuer, steps: seq<Step>, rules: Rules): Issuer
    requires Runs(s, steps, rules)
    decreases |steps|
  {
    if steps == [] then s else After(Next(s, steps[0], rules), steps[1..], rules)
  }

  lemma {:induction false} RunKeeps(s: Issuer, steps: seq<Step>, seeded: map<Pan, int>, rules: Rules)
    requires Inv(s, seeded) && Runs(s, steps, rules)
    ensures Inv(After(s, steps, rules), seeded)
    decreases |steps|
  {
    if steps != [] {
      StepKeeps(s, steps[0], seeded, rules);
      RunKeeps(Next(s, steps[0], rules), steps[1..], seeded, rules);
    }
  }

  lemma {:induction false} ReservedBounds(es: seq<Exchange>, pan: Pan)
    requires forall i :: 0 <= i < |es| ==> ExchangeOk(es[i])
    ensures TotalReserved(es, pan) >= 0 && TotalTaken(es, pan) >= 0
    ensures (forall i :: 0 <= i < |es| ==> es[i].pc.Finished?) ==> TotalReserved(es, pan) == 0
  {
    if es != [] {
      ReservedBounds(es[..|es| - 1], pan);
    }
  }

  /** At every moment of every interleaving: funds are conserved per card, nothing is
      overdrawn, what is held is what joined and unfinished exchanges reserved, and every
      balance stays within the opening one, so 64 bits never wrap. Once all exchanges are
      finished nothing is held and what is gone is what committed exchanges took. */
  lemma FundsAreConserved(seeded: map<Pan, int>, steps: seq<Step>, rules: Rules, pan: Pan)
    requires (forall p :: p in seeded ==> seeded[p] >= 0) && Runs(Opened(seeded), steps, rules)
    ensures var s := After(Opened(seeded), steps, rules);
            var a, h := Balance(s.books.available, pan), Balance(s.books.held, pan);
            && a + h + TotalTaken(s.exchanges, pan) == Balance(seeded, pan)
            && h == TotalReserved(s.exchanges, pan)
            && 0 <= a <= Balance(seeded, pan) && 0 <= h <= Balance(seeded, pan)
            && ((forall i :: 0 <= i < |s.exchanges| ==> s.exchanges[i].pc.Finished?) ==>
                  h == 0 && a == Balance(seeded, pan) - TotalTaken(s.exchanges, pan))
  {
    OpenedOk(seeded);
    RunKeeps(Opened(seeded), steps, seeded, rules);
    var s := After(Opened(seeded), steps, rules);
    assert BooksOk(s, seeded, pan);
    ReservedBounds(s.exchanges, pan);
  }
}
