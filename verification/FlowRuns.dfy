/** What every Run guarantees, whatever the stages do (flow/flow.go). */
module FlowRuns {
  import opened Wrappers
  import opened Numerals
  import opened Flows

  function Max0(n: int): nat { if n < 0 then 0 else n }

  /** The stages that voted Continue or Route without an error, in the order they did. */
  function Voters(w: World, calls: seq<Call>): seq<Stage>
  {
    if calls == [] then []
    else
      var before, st := calls[..|calls| - 1], calls[|calls| - 1].st;
      var r := w.prepare(before, st);
      Voters(w, before) + if r.err.None? && r.action.Continue? then [st] else []
  }

  lemma VotersSnoc(w: World, calls: seq<Call>, st: Stage)
    ensures var r := w.prepare(calls, st);
            Voters(w, calls + [Prepare(st)]) == Voters(w, calls) + if r.err.None? && r.action.Continue? then [st] else []
  {
    assert (calls + [Prepare(st)])[..|calls|] == calls;
  }

  /** The calls are prepares of the leading stages of the work list, which starts with the
      entry group, and the joined stages are those that voted so. */
  ghost predicate PassOk(f: Flow, w: World, entry: seq<Stage>, p: Pass)
  {
    && entry <= p.work && |p.calls| <= |p.work| && |p.calls| <= Max0(f.maxStages)
    && (forall j :: 0 <= j < |p.calls| ==> p.calls[j] == Prepare(p.work[j]))
    && p.joined == Voters(w, p.calls)
  }

  lemma {:induction false} ResolveExtends(f: Flow, work: seq<Stage>, names: seq<Group>)
    ensures Resolve(f, work, names).Ok? ==> work <= Resolve(f, work, names).value
    decreases |names|
  {
    if names != [] && names[0] in f.groups {
      ResolveExtends(f, work + f.groups[names[0]], names[1..]);
    }
  }

  lemma Grown(f: Flow, w: World, entry: seq<Stage>, p: Pass, q: Pass, i: nat)
    requires PassOk(f, w, entry, p) && i == |p.calls| < |p.work| && i < f.maxStages
    requires p.work <= q.work && q.calls == p.calls + [Prepare(p.work[i])] && q.joined == Voters(w, q.calls)
    ensures PassOk(f, w, entry, q)
  {
    forall j | 0 <= j < |q.calls| ensures q.calls[j] == Prepare(q.work[j]) {
      assert q.work[j] == p.work[j];
    }
  }

  lemma TurnOk(f: Flow, w: World, entry: seq<Stage>, p: Pass, i: nat)
    requires PassOk(f, w, entry, p) && i == |p.calls| < |p.work| && !p.over
    ensures PassOk(f, w, entry, Turn(f, w, p, i)) && (!Turn(f, w, p, i).over ==> |Turn(f, w, p, i).calls| == i + 1)
  {
    var st := p.work[i];
    VotersSnoc(w, p.calls, st);
    var r := w.prepare(p.calls, st);
    if r.action.Continue? { ResolveExtends(f, p.work, r.action.groups); }
    if i < f.maxStages && w.cancelled(p.calls).None? {
      Grown(f, w, entry, p, Turn(f, w, p, i), i);
    }
  }

  lemma {:induction false} PassesOk(f: Flow, w: World, entry: seq<Stage>, p: Pass, i: nat)
    requires PassOk(f, w, entry, p) && (!p.over ==> i == |p.calls|)
    ensures var q := PrepareFrom(f, w, p, i); PassOk(f, w, entry, q) && (!q.over ==> |q.calls| == |q.work|)
    decreases if f.maxStages < i then 0 else f.maxStages - i + 1
  {
    if !p.over && i < |p.work| {
      TurnOk(f, w, entry, p, i);
      var q := Turn(f, w, p, i);
      if !q.over { PassesOk(f, w, entry, q, i + 1); }
    }
  }

  lemma PreparedOk(f: Flow, w: World, ex: Exchange)
    requires f.entry in f.groups
    ensures var p := Prepared(f, w, ex);
            PassOk(f, w, f.groups[f.entry], p) && (!p.over ==> |p.calls| == |p.work|)
  {
    PassesOk(f, w, f.groups[f.entry], Pass(f.groups[f.entry], [], [], ex, None, false), 0);
  }

  // ----- why the pass ended -----

  /** A finished pass either ran the whole work list, or stopped at its last call: with an
      error, an abort, Done or an unknown group; or before the next, at the limit or a
      cancelled context. */
  ghost predicate EndedFor(f: Flow, w: World, p: Pass)
  {
    var n := |p.calls|;
    || (!p.over && p.err.None? && n == |p.work|)
    || (p.over && n < |p.work| && n >= f.maxStages && p.err == Some(TooManyStages))
    || (p.over && n < |p.work| && w.cancelled(p.calls).Some? && p.err == Some(Cancelled(w.cancelled(p.calls).value)))
    || (p.over && n > 0 &&
        var r := w.prepare(p.calls[..n - 1], p.calls[n - 1].st);
        || (r.err.Some? && p.err == r.err)
        || (r.err.None? && p.err.None? && (p.ex.aborted || r.action.Done?))
        || (r.err.None? && r.action.Continue? && p.err.Some? && p.err.value.UnknownGroup? && p.err.value.g !in f.groups))
  }

  lemma {:induction false} ResolveFails(f: Flow, work: seq<Stage>, names: seq<Group>)
    ensures var r := Resolve(f, work, names); r.Err? ==> r.error.UnknownGroup? && r.error.g !in f.groups && r.error.g in names
    ensures Resolve(f, work, names).Ok? <==> forall g :: g in names ==> g in f.groups
    decreases |names|
  {
    if names != [] && names[0] in f.groups {
      ResolveFails(f, work + f.groups[names[0]], names[1..]);
      assert forall g :: g in names <==> g == names[0] || g in names[1..];
    }
  }

  lemma TurnEnds(f: Flow, w: World, p: Pass, i: nat)
    requires !p.over && p.err.None? && i == |p.calls| < |p.work|
    ensures Turn(f, w, p, i).over ==> EndedFor(f, w, Turn(f, w, p, i))
    ensures !Turn(f, w, p, i).over ==> Turn(f, w, p, i).err.None?
  {
    var st := p.work[i];
    var r := w.prepare(p.calls, st);
    var q := Turn(f, w, p, i);
    if r.action.Continue? { ResolveFails(f, p.work, r.action.groups); }
    if |q.calls| == i + 1 {
      assert q.calls[..i] == p.calls && q.calls[i].st == st;
    }
  }

  lemma {:induction false} PassEnds(f: Flow, w: World, entry: seq<Stage>, p: Pass, i: nat)
    requires !p.over && p.err.None? && i == |p.calls| && PassOk(f, w, entry, p)
    ensures EndedFor(f, w, PrepareFrom(f, w, p, i))
    decreases if f.maxStages < i then 0 else f.maxStages - i + 1
  {
    if i < |p.work| {
      TurnEnds(f, w, p, i);
      TurnOk(f, w, entry, p, i);
      var q := Turn(f, w, p, i);
      if !q.over { PassEnds(f, w, entry, q, i + 1); }
    }
  }

  lemma PreparedEnds(f: Flow, w: World, ex: Exchange)
    requires f.entry in f.groups
    ensures EndedFor(f, w, Prepared(f, w, ex))
  {
    PassEnds(f, w, f.groups[f.entry], Pass(f.groups[f.entry], [], [], ex, None, false), 0);
  }

  // ----- the second phase, stage by stage -----

  function Committers(joined: seq<Stage>): seq<Stage>
  {
    if joined == [] then [] else Committers(joined[..|joined| - 1]) + if joined[|joined| - 1].committer then [joined[|joined| - 1]] else []
  }

  function Aborters(joined: seq<Stage>): seq<Stage>
  {
    if joined == [] then [] else Aborters(joined[..|joined| - 1]) + if joined[|joined| - 1].aborter then [joined[|joined| - 1]] else []
  }

  /** Every joined committer is committed once, in join order. */
  lemma {:induction false} CommitsInOrder(joined: seq<Stage>)
    ensures |Commits(joined)| == |Committers(joined)|
    ensures forall k :: 0 <= k < |Commits(joined)| ==> Commits(joined)[k] == Commit(Committers(joined)[k])
  {
    if joined != [] {
      CommitsInOrder(joined[..|joined| - 1]);
    }
  }

  /** Every joined aborter is aborted once, in reverse join order. */
  lemma {:induction false} AbortsInReverse(joined: seq<Stage>)
    ensures |Aborts(joined)| == |Aborters(joined)|
    ensures forall k :: 0 <= k < |Aborts(joined)| ==> Aborts(joined)[k] == Abort(Aborters(joined)[|Aborters(joined)| - 1 - k])
  {
    if joined != [] {
      var before, last := joined[..|joined| - 1], joined[|joined| - 1];
      AbortsInReverse(before);
      if last.aborter { ReversedFront(Aborts(before), Aborters(before), last); }
    }
  }

  lemma ReversedFront(calls: seq<Call>, stages: seq<Stage>, last: Stage)
    requires |calls| == |stages| && forall k :: 0 <= k < |calls| ==> calls[k] == Abort(stages[|stages| - 1 - k])
    ensures var c, s := [Abort(last)] + calls, stages + [last];
            forall k :: 0 <= k < |c| ==> c[k] == Abort(s[|s| - 1 - k])
  {
  }

  lemma {:induction false} CommitsCount(joined: seq<Stage>, st: Stage)
    ensures multiset(Commits(joined))[Commit(st)] == if st.committer then multiset(joined)[st] else 0
    ensures multiset(Commits(joined))[Abort(st)] == 0
  {
    if joined != [] {
      SplitLast(joined);
      CommitsCount(joined[..|joined| - 1], st);
    }
  }

  lemma {:induction false} AbortsCount(joined: seq<Stage>, st: Stage)
    ensures multiset(Aborts(joined))[Abort(st)] == if st.aborter then multiset(joined)[st] else 0
    ensures multiset(Aborts(joined))[Commit(st)] == 0
  {
    if joined != [] {
      SplitLast(joined);
      AbortsCount(joined[..|joined| - 1], st);
    }
  }

  // ----- the guarantee -----

  /** A run that got past its checks: at most max(0, maxStages) prepares; then either the
      commits of exactly the stages that voted to join, or their aborts, never both; and
      the journal says which. */
  ghost predicate TwoPhase(f: Flow, w: World, r: Ran, n: nat)
  {
    && n <= |r.calls| && n <= Max0(f.maxStages) && (forall j :: 0 <= j < n ==> r.calls[j].Prepare?)
    && r.joined == Voters(w, r.calls[..n])
    && (|| (r.events == [Begin, Committed] && r.calls[n..] == Commits(r.joined))
        || (r.err.Some? && r.events == [Begin, AbortedWith(r.err.value)] && r.calls[n..] == Aborts(r.joined) && r.ex.aborted))
  }

  lemma RunIsTwoPhase(f: Flow, w: World, ex: Exchange, key: Option<string>, stored: map<string, Option<Message>>) returns (n: nat)
    requires f.entry != "" && f.entry in f.groups && !(key.Some? && key.value in stored)
    ensures TwoPhase(f, w, RunSpec(f, w, ex, key, stored), n)
  {
    PreparedOk(f, w, ex);
    var p, r := Prepared(f, w, ex), RunSpec(f, w, ex, key, stored);
    n := |p.calls|;
    assert r.calls[..n] == p.calls;
  }

  /** A stage with both halves that joined k times gets k commits and no abort, or k aborts
      and no commit. */
  lemma JoinedIsSettledOnce(f: Flow, w: World, ex: Exchange, key: Option<string>, stored: map<string, Option<Message>>, st: Stage)
    returns (n: nat)
    requires f.entry != "" && f.entry in f.groups && !(key.Some? && key.value in stored) && st.committer && st.aborter
    ensures var r := RunSpec(f, w, ex, key, stored); var k := multiset(r.joined)[st];
            && n <= |r.calls| && r.joined == Voters(w, r.calls[..n])
            && var second := multiset(r.calls[n..]);
            && second[Commit(st)] == (if r.events == [Begin, Committed] then k else 0)
            && second[Abort(st)] == (if r.events == [Begin, Committed] then 0 else k)
  {
    n := RunIsTwoPhase(f, w, ex, key, stored);
    var r := RunSpec(f, w, ex, key, stored);
    CommitsCount(r.joined, st);
    AbortsCount(r.joined, st);
  }

  /** The journal is Begin and then exactly one of Committed or Aborted, or a lone replay,
      or nothing where the flow cannot start; without Begin no stage is called. */
  lemma JournalShape(f: Flow, w: World, ex: Exchange, key: Option<string>, stored: map<string, Option<Message>>)
    ensures var r := RunSpec(f, w, ex, key, stored);
            && (r.events == [] <==> f.entry == "" || f.entry !in f.groups)
            && (r.events == [IdempotentHit] <==> f.entry != "" && f.entry in f.groups && key.Some? && key.value in stored)
            && (r.events == [] || r.events == [IdempotentHit] || r.events == [Begin, Committed]
                || (r.err.Some? && r.events == [Begin, AbortedWith(r.err.value)]))
            && (|r.events| < 2 ==> r.calls == [])
  {
    var r := RunSpec(f, w, ex, key, stored);
    if f.entry != "" && f.entry in f.groups && !(key.Some? && key.value in stored) {
      var n := RunIsTwoPhase(f, w, ex, key, stored);
      assert |r.events| == 2;
    }
  }

  // ----- idempotency -----

  datatype Attempt = Attempt(w: World, ex: Exchange, key: Option<string>)

  /** The responses stored once a flow has run the attempts, one after the other. */
  function Stored(f: Flow, attempts: seq<Attempt>, stored: map<string, Option<Message>>): map<string, Option<Message>>
  {
    if attempts == [] then stored
    else
      var before, a := Stored(f, attempts[..|attempts| - 1], stored), attempts[|attempts| - 1];
      RunSpec(f, a.w, a.ex, a.key, before).stored
  }

  /** What is stored changes only by a run that was not a replay and succeeded, under its
      own key, to its response. */
  lemma StoredOnSuccess(f: Flow, a: Attempt, stored: map<string, Option<Message>>, key: string)
    ensures var r := RunSpec(f, a.w, a.ex, a.key, stored);
            && (r.stored != stored ==> a.key.Some? && a.key.value !in stored && r.err.None? && r.events == [Begin, Committed])
            && (r.err.None? && a.key == Some(key) ==> key in r.stored && r.stored[key] == r.ex.response)
            && (key in stored ==> key in r.stored && r.stored[key] == stored[key])
            && (key in r.stored && key !in stored ==> a.key == Some(key) && r.err.None?)
  {
  }

  lemma {:induction false} StoredStays(f: Flow, attempts: seq<Attempt>, stored: map<string, Option<Message>>, key: string)
    requires key in stored
    ensures key in Stored(f, attempts, stored) && Stored(f, attempts, stored)[key] == stored[key]
  {
    if attempts != [] {
      var before := Stored(f, attempts[..|attempts| - 1], stored);
      StoredStays(f, attempts[..|attempts| - 1], stored, key);
      StoredOnSuccess(f, attempts[|attempts| - 1], before, key);
    }
  }

  /** After a run under a key that succeeded, and whatever runs follow it, every later
      exchange with the key is answered with its response, and no stage is called. */
  lemma DuplicateIsReplayed(f: Flow, first: Attempt, key: string, stored: map<string, Option<Message>>,
                            between: seq<Attempt>, again: Attempt)
    requires first.key == Some(key) == again.key && RunSpec(f, first.w, first.ex, first.key, stored).err.None?
    ensures var r := RunSpec(f, first.w, first.ex, first.key, stored); var now := Stored(f, between, r.stored);
            RunSpec(f, again.w, again.ex, again.key, now)
            == Ran(None, [], [IdempotentHit], again.ex.(response := r.ex.response), [], now)
  {
    StoredOnSuccess(f, first, stored, key);
    StoredStays(f, between, RunSpec(f, first.w, first.ex, first.key, stored).stored, key);
  }

  /** Some attempt under the key, run after those before it, returned no error. */
  predicate Succeeded(f: Flow, attempts: seq<Attempt>, key: string)
  {
    attempts != [] && (
      var before, a := attempts[..|attempts| - 1], attempts[|attempts| - 1];
      Succeeded(f, before, key) || (a.key == Some(key) && RunSpec(f, a.w, a.ex, a.key, Stored(f, before, map[])).err.None?))
  }

  /** A key is answered from the store exactly when some earlier run under it succeeded: a
      request that failed may be tried again. */
  lemma {:induction false} StoredIffSucceeded(f: Flow, attempts: seq<Attempt>, key: string)
    ensures key in Stored(f, attempts, map[]) <==> Succeeded(f, attempts, key)
  {
    if attempts != [] {
      var before := attempts[..|attempts| - 1];
      StoredIffSucceeded(f, before, key);
      StoredOnSuccess(f, attempts[|attempts| - 1], Stored(f, before, map[]), key);
    }
  }
}
