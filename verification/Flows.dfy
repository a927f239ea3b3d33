/** The two-phase transaction manager (flow/flow.go, flow/stage.go, flow/exchange.go): one
    Run over stages that may behave in any way. */
module Flows {
  import opened Wrappers
  import opened Numerals

  type Group = string
  type Message = seq<int>

  /** A stage, and which halves of the second phase it implements. */
  datatype Stage = Stage(name: string, committer: bool, aborter: bool)

  datatype Error =
    | NoEntry | UnknownGroup(g: Group) | TooManyStages | Aborted
    | Cancelled(code: int) | StageError(code: int) | CommitErrors(codes: seq<int>)

  /** Route joins like Continue and appends groups; Continue routes nowhere. */
  datatype Action = Continue(groups: seq<Group>) | Skip | Done

  /** What one Prepare did: its result, and whether it called Exchange.Abort. */
  datatype Reply = Reply(err: Option<Error>, action: Action, aborts: bool, cause: Option<Error>, response: Option<Message>)

  datatype Call = Prepare(st: Stage) | Commit(st: Stage) | Abort(st: Stage)

  /** Stages and context: any function of the calls made so far. */
  datatype World = World(
    prepare: (seq<Call>, Stage) -> Reply,
    cancelled: seq<Call> -> Option<int>,
    commit: (seq<Call>, Stage) -> Option<int>)

  datatype Event = Begin | Committed | AbortedWith(cause: Error) | IdempotentHit

  datatype Exchange = Exchange(aborted: bool, err: Option<Error>, response: Option<Message>)

  datatype Flow = Flow(groups: map<Group, seq<Stage>>, entry: Group, maxStages: int)

  // ----- the prepare pass -----

  function Resolve(f: Flow, work: seq<Stage>, names: seq<Group>): Result<seq<Stage>, Error>
    decreases |names|
  {
    if names == [] then Ok(work)
    else if names[0] !in f.groups then Err(UnknownGroup(names[0]))
    else Resolve(f, work + f.groups[names[0]], names[1..])
  }

  function Noted(ex: Exchange, r: Reply): Exchange
  {
    var ex' := if r.aborts then Exchange(true, if r.cause.Some? then r.cause else ex.err, ex.response) else ex;
    if r.response.Some? then ex'.(response := r.response) else ex'
  }

  /** The state of the prepare loop, before stage i of work. */
  datatype Pass = Pass(work: seq<Stage>, calls: seq<Call>, joined: seq<Stage>, ex: Exchange, err: Option<Error>, over: bool)

  /** One iteration, for i < |work|. */
  function Turn(f: Flow, w: World, p: Pass, i: nat): Pass
    requires i < |p.work|
  {
    if i >= f.maxStages then p.(err := Some(TooManyStages), over := true)
    else if w.cancelled(p.calls).Some? then p.(err := Some(Cancelled(w.cancelled(p.calls).value)), over := true)
    else
      var st := p.work[i];
      var r := w.prepare(p.calls, st);
      var q := p.(calls := p.calls + [Prepare(st)], ex := Noted(p.ex, r));
      if r.err.Some? then q.(err := r.err, over := true)
      else
        var j := if r.action.Continue? then q.(joined := q.joined + [st]) else q;
        if j.ex.aborted || r.action.Done? then j.(over := true)
        else if r.action.Continue? && r.action.groups != [] then
          var more := Resolve(f, j.work, r.action.groups);
          if more.Err? then j.(err := Some(more.error), over := true) else j.(work := more.value)
        else j
  }

  function PrepareFrom(f: Flow, w: World, p: Pass, i: nat): Pass
    decreases if f.maxStages < i then 0 else f.maxStages - i + 1
  {
    if p.over || i >= |p.work| then p
    else
      var q := Turn(f, w, p, i);
      if q.over then q else PrepareFrom(f, w, q, i + 1)
  }

  // ----- the second phase -----

  function Commits(joined: seq<Stage>): seq<Call>
  {
    if joined == [] then []
    else Commits(joined[..|joined| - 1]) + if joined[|joined| - 1].committer then [Commit(joined[|joined| - 1])] else []
  }

  function Aborts(joined: seq<Stage>): seq<Call>
  {
    if joined == [] then []
    else (if joined[|joined| - 1].aborter then [Abort(joined[|joined| - 1])] else []) + Aborts(joined[..|joined| - 1])
  }

  /** The errors of the commits made after `before`, in order. */
  function CommitFailures(w: World, before: seq<Call>, joined: seq<Stage>): seq<int>
  {
    if joined == [] then []
    else
      var st, sofar := joined[|joined| - 1], joined[..|joined| - 1];
      CommitFailures(w, before, sofar) +
      if st.committer && w.commit(before + Commits(sofar), st).Some? then [w.commit(before + Commits(sofar), st).value] else []
  }

  // ----- Run -----

  /** What Run did: its error, the calls it made, the events it journalled, the exchange
      and the idempotency entries it left. */
  datatype Ran = Ran(err: Option<Error>, calls: seq<Call>, events: seq<Event>, ex: Exchange, joined: seq<Stage>,
    stored: map<string, Option<Message>>)

  function CauseOf(p: Pass): Error
  {
    if p.err.Some? then p.err.value else if p.ex.err.Some? then p.ex.err.value else Error.Aborted
  }

  function Prepared(f: Flow, w: World, ex: Exchange): Pass
    requires f.entry in f.groups
  {
    PrepareFrom(f, w, Pass(f.groups[f.entry], [], [], ex, None, false), 0)
  }

  function Finished(w: World, p: Pass, key: Option<string>, stored: map<string, Option<Message>>): Ran
  {
    if p.err.Some? || p.ex.aborted then
      var cause := CauseOf(p);
      Ran(Some(cause), p.calls + Aborts(p.joined), [Begin, AbortedWith(cause)], p.ex.(aborted := true, err := Some(cause)), p.joined, stored)
    else
      var errs := CommitFailures(w, p.calls, p.joined);
      Ran(if errs == [] then None else Some(CommitErrors(errs)), p.calls + Commits(p.joined), [Begin, Committed], p.ex, p.joined,
          if errs == [] && key.Some? then stored[key.value := p.ex.response] else stored)
  }

  /** `key` is the idempotency key, None where idempotency is off for this exchange. */
  function RunSpec(f: Flow, w: World, ex: Exchange, key: Option<string>, stored: map<string, Option<Message>>): Ran
  {
    if f.entry == "" then Ran(Some(NoEntry), [], [], ex, [], stored)
    else if f.entry !in f.groups then Ran(Some(UnknownGroup(f.entry)), [], [], ex, [], stored)
    else if key.Some? && key.value in stored then
      Ran(None, [], [IdempotentHit], ex.(response := stored[key.value]), [], stored)
    else Finished(w, Prepared(f, w, ex), key, stored)
  }

  // ----- the loops of the source -----

  method AppendGroups(f: Flow, work: seq<Stage>, names: seq<Group>) returns (r: Result<seq<Stage>, Error>)
    ensures r == Resolve(f, work, names)
  {
    var out := work;
    for i := 0 to |names|
      invariant Resolve(f, work, names) == Resolve(f, out, names[i..])
    {
      if names[i] !in f.groups { return Err(UnknownGroup(names[i])); }
      out := out + f.groups[names[i]];
      assert names[i..][1..] == names[i + 1..];
    }
    return Ok(out);
  }

  /** Run's prepare loop, with its work list growing as stages route. */
  method PreparePass(f: Flow, w: World, ex0: Exchange) returns (p: Pass)
    requires f.entry in f.groups
    ensures p == Prepared(f, w, ex0)
  {
    var work, calls, joined, ex := f.groups[f.entry], [], [], ex0;
    var err: Option<Error> := None;
    var i := 0;
    while i < |work|
      invariant 0 <= i && err == None
      invariant Prepared(f, w, ex0) == PrepareFrom(f, w, Pass(work, calls, joined, ex, err, false), i)
      decreases if f.maxStages < i then 0 else f.maxStages - i + 1
    {
      if i >= f.maxStages { return Pass(work, calls, joined, ex, Some(TooManyStages), true); }
      var c := w.cancelled(calls);
      if c.Some? { return Pass(work, calls, joined, ex, Some(Cancelled(c.value)), true); }
      var st := work[i];
      var r := w.prepare(calls, st);
      calls, ex := calls + [Prepare(st)], Noted(ex, r);
      if r.err.Some? { return Pass(work, calls, joined, ex, r.err, true); }
      if r.action.Continue? { joined := joined + [st]; }
      if ex.aborted || r.action.Done? { return Pass(work, calls, joined, ex, err, true); }
      if r.action.Continue? && r.action.groups != [] {
        var more := AppendGroups(f, work, r.action.groups);
        if more.Err? { return Pass(work, calls, joined, ex, Some(more.error), true); }
        work := more.value;
      }
      i := i + 1;
    }
    p := Pass(work, calls, joined, ex, err, false);
  }

  method CommitJoined(w: World, before: seq<Call>, joined: seq<Stage>) returns (calls: seq<Call>, errs: seq<int>)
    ensures calls == before + Commits(joined) && errs == CommitFailures(w, before, joined)
  {
    calls, errs := before, [];
    for i := 0 to |joined|
      invariant calls == before + Commits(joined[..i]) && errs == CommitFailures(w, before, joined[..i])
    {
      var st := joined[i];
      assert joined[..i + 1][..i] == joined[..i];
      if st.committer {
        var e := w.commit(calls, st);
        calls := calls + [Commit(st)];
        if e.Some? { errs := errs + [e.value]; }
      }
    }
    assert joined[..|joined|] == joined;
  }

  method AbortJoined(before: seq<Call>, joined: seq<Stage>) returns (calls: seq<Call>)
    ensures calls == before + Aborts(joined)
  {
    calls := before;
    var i := |joined|;
    assert joined[..i] == joined;
    while i > 0
      invariant 0 <= i <= |joined|
      invariant calls + Aborts(joined[..i]) == before + Aborts(joined)
    {
      i := i - 1;
      var st := joined[i];
      assert joined[..i + 1][..i] == joined[..i];
      if st.aborter {
        ConcatAssoc(calls, [Abort(st)], Aborts(joined[..i]));
        calls := calls + [Abort(st)];
      }
    }
    assert calls + [] == calls;
  }

  method Run(f: Flow, w: World, ex: Exchange, key: Option<string>, stored: map<string, Option<Message>>) returns (r: Ran)
    ensures r == RunSpec(f, w, ex, key, stored)
  {
    if f.entry == "" { return Ran(Some(NoEntry), [], [], ex, [], stored); }
    if f.entry !in f.groups { return Ran(Some(UnknownGroup(f.entry)), [], [], ex, [], stored); }
    if key.Some? && key.value in stored {
      return Ran(None, [], [IdempotentHit], ex.(response := stored[key.value]), [], stored);
    }
    var p := PreparePass(f, w, ex);
    if p.err.Some? || p.ex.aborted {
      var cause := CauseOf(p);
      var calls := AbortJoined(p.calls, p.joined);
      return Ran(Some(cause), calls, [Begin, AbortedWith(cause)], p.ex.(aborted := true, err := Some(cause)), p.joined, stored);
    }
    var calls, errs := CommitJoined(w, p.calls, p.joined);
    var kept := stored;
    if key.Some? && errs == [] { kept := stored[key.value := p.ex.response]; }
    return Ran(if errs == [] then None else Some(CommitErrors(errs)), calls, [Begin, Committed], p.ex, p.joined, kept);
  }
}
