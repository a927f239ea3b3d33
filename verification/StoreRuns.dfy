/** Whole runs of the durable queue (space/store.go): a refinement of a plain keyed FIFO,
    and what a crash at any octet recovers. */
module StoreRuns {
  import opened Numerals
  import opened StoreLog
  import opened Stores

  datatype Op = Push(key: Key, val: seq<byte>) | Pull(key: Key) | Compact(order: seq<Key>) | Reopen

  const EMPTY: State := State(map[], 0, [])

  /** A pull from an empty queue takes nothing; a replay that fails opens nothing. */
  function Step(st: State, op: Op): State
  {
    match op
    case Push(key, val) => PushSpec(st, key, val)
    case Pull(key) => if QueueOf(st.data, key) == [] then st else TakeSpec(st, key)
    case Compact(order) => CompactSpec(st, order)
    case Reopen => (var r := ReplaySpec(st.log); if r.None? then st else r.value)
  }

  function Run(st: State, ops: seq<Op>): State
  {
    if ops == [] then st else Step(Run(st, ops[..|ops| - 1]), ops[|ops| - 1])
  }

  /** Pushed records fit the format; compaction visits each key once. */
  ghost predicate Allowed(st: State, op: Op)
  {
    match op
    case Push(key, val) => Fits(Rec(OP_OUT, st.seqNo, key, val))
    case Pull(_) => true
    case Compact(order) => Visits(order, st.data)
    case Reopen => true
  }

  ghost predicate AllAllowed(st: State, ops: seq<Op>)
  {
    ops == [] || (AllAllowed(st, ops[..|ops| - 1]) && Allowed(Run(st, ops[..|ops| - 1]), ops[|ops| - 1]))
  }

  lemma EmptyInv()
    ensures Inv(EMPTY)
  {
    assert EncodedAll([]) == [];
    InvOf(EMPTY, []);
  }

  lemma StepKeeps(st: State, op: Op)
    requires Inv(st) && Allowed(st, op)
    ensures Inv(Step(st, op))
  {
    match op
    case Push(key, val) => PushKeeps(st, key, val);
    case Pull(key) => if QueueOf(st.data, key) != [] { TakeKeeps(st, key); }
    case Compact(order) => CompactKeeps(st, order);
    case Reopen => ReopenKeeps(st);
  }

  lemma {:induction false} RunKeeps(st: State, ops: seq<Op>)
    requires Inv(st) && AllAllowed(st, ops)
    ensures Inv(Run(st, ops))
  {
    if ops != [] {
      RunKeeps(st, ops[..|ops| - 1]);
      StepKeeps(Run(st, ops[..|ops| - 1]), ops[|ops| - 1]);
    }
  }

  // ----- refinement of a keyed FIFO -----

  function Values(q: seq<Record>): seq<seq<byte>>
  {
    seq(|q|, i requires 0 <= i < |q| => q[i].val)
  }

  /** The values pushed under a key, in order. */
  function Pushed(ops: seq<Op>, key: Key): seq<seq<byte>>
  {
    if ops == [] then []
    else
      var op := ops[|ops| - 1];
      Pushed(ops[..|ops| - 1], key) + if op.Push? && op.key == key then [op.val] else []
  }

  /** The values pulled under a key, in order. */
  function Pulled(st: State, ops: seq<Op>, key: Key): seq<seq<byte>>
  {
    if ops == [] then []
    else
      var op, before := ops[|ops| - 1], Run(st, ops[..|ops| - 1]);
      Pulled(st, ops[..|ops| - 1], key) +
      if op.Pull? && op.key == key && QueueOf(before.data, key) != [] then [before.data[key][0].val] else []
  }

  /** One step on one key, seen as a FIFO of values. */
  lemma StepIsFifo(st: State, op: Op, key: Key)
    requires Inv(st) && Allowed(st, op)
    ensures var q, q' := Values(QueueOf(st.data, key)), Values(QueueOf(Step(st, op).data, key));
            q' == if op.Push? && op.key == key then q + [op.val]
                  else if op.Pull? && op.key == key && q != [] then q[1..]
                  else q
  {
    if op.Reopen? { ReopenKeeps(st); }
  }

  /** Over every run of pushes, pulls, compactions and reopenings: what was pulled under a
      key, followed by what is queued, is what was pushed; and replaying the log gives the
      queues in memory. */
  lemma {:induction false} StoreIsFifo(ops: seq<Op>, key: Key)
    requires AllAllowed(EMPTY, ops)
    ensures Pulled(EMPTY, ops, key) + Values(QueueOf(Run(EMPTY, ops).data, key)) == Pushed(ops, key)
    ensures ReplaySpec(Run(EMPTY, ops).log).Some?
    ensures ReplaySpec(Run(EMPTY, ops).log).value.data == Run(EMPTY, ops).data
  {
    EmptyInv();
    RunKeeps(EMPTY, ops);
    ReopenKeeps(Run(EMPTY, ops));
    if ops != [] {
      var before, op := ops[..|ops| - 1], ops[|ops| - 1];
      StoreIsFifo(before, key);
      var st := Run(EMPTY, before);
      RunKeeps(EMPTY, before);
      StepIsFifo(st, op, key);
      Balance(Pulled(EMPTY, before, key), Values(QueueOf(st.data, key)), Pushed(before, key), op, key);
    } else {
      assert Values([]) == [];
    }
  }

  lemma Balance(pulled: seq<seq<byte>>, q: seq<seq<byte>>, pushed: seq<seq<byte>>, op: Op, key: Key)
    requires pulled + q == pushed
    ensures op.Push? && op.key == key ==> pulled + (q + [op.val]) == pushed + [op.val]
    ensures q != [] ==> (pulled + [q[0]]) + q[1..] == pushed
  {
  }

  // ----- a crash at any octet -----

  /** A push or pull adds at most one record to the log, and keeps what is there; reopening
      writes nothing. */
  lemma StepAppends(st: State, op: Op)
    requires Inv(st) && Allowed(st, op) && !op.Compact?
    ensures Inv(Step(st, op))
    ensures Step(st, op).log == st.log || exists r :: Fits(r) && Appended(st, Step(st, op), r)
  {
    StepKeeps(st, op);
    if op.Push? {
      PushKeeps(st, op.key, op.val);
      assert Appended(st, Step(st, op), Rec(OP_OUT, st.seqNo, op.key, op.val));
    } else if op.Pull? && QueueOf(st.data, op.key) != [] {
      TakeKeeps(st, op.key);
      var recs := Scan(st.log).recs;
      RebuildTraced(recs, Tombs(recs));
      LawfulFit(recs);
      TombFits(recs, st.data[op.key][0].seqNo);
      assert Appended(st, Step(st, op), Rec(OP_IN, st.data[op.key][0].seqNo, [], []));
    }
  }

  ghost predicate Appended(st: State, st': State, r: Rec)
  {
    st'.log == st.log + Encoded(r) && Scan(st'.log).recs == Scan(st.log).recs + [r]
  }

  /** A log cut short of its last record recovers what the log before it held. */
  lemma CutLast(st: State, st': State, r: Rec, n: nat)
    requires Inv(st) && Inv(st') && Fits(r) && Appended(st, st', r) && |st.log| <= n < |st'.log|
    ensures Scan(st'.log[..n]).recs == Scan(st.log).recs && Scan(st'.log[..n]).stop != Bad
  {
    var recs, recs' := Scan(st.log).recs, Scan(st'.log).recs;
    LawfulFit(recs');
    CutScans(recs', n);
    assert recs'[..|recs|] == recs;
    WholeIsLongest(recs', n, |recs|);
    assert recs'[..|recs'|] == recs';
    WholeIsLongest(recs', n, |recs'|);
  }

  /** Replaying the first n octets of the log after ops gives the queues as they were
      after the first j operations, and those are all whose records are whole. */
  ghost predicate Recovers(st: State, ops: seq<Op>, n: nat, j: nat)
  {
    && j <= |ops| && |Run(st, ops[..j]).log| <= n <= |Run(st, ops).log|
    && (j < |ops| ==> n < |Run(st, ops[..j + 1]).log|)
    && ReplaySpec(Run(st, ops).log[..n]).Some?
    && ReplaySpec(Run(st, ops).log[..n]).value.data == Run(st, ops[..j]).data
  }

  lemma RecoversAll(st: State, ops: seq<Op>)
    requires Inv(Run(st, ops))
    ensures Recovers(st, ops, |Run(st, ops).log|, |ops|)
  {
    assert ops[..|ops|] == ops;
    var log := Run(st, ops).log;
    assert log[..|log|] == log;
    ReopenKeeps(Run(st, ops));
  }

  lemma RecoversLater(st: State, before: seq<Op>, op: Op, n: nat, j: nat)
    requires Recovers(st, before, n, j) && n < |Run(st, before).log|
    requires Run(st, before).log <= Run(st, before + [op]).log
    ensures Recovers(st, before + [op], n, j)
  {
    var ops := before + [op];
    assert before[..|before|] == before;
    assert ops[..j] == before[..j] && ops[..j + 1] == before[..j + 1];
    assert Run(st, ops).log[..n] == Run(st, before).log[..n];
  }

  lemma RecoversBefore(st: State, before: seq<Op>, op: Op, n: nat, r: Rec)
    requires Inv(Run(st, before)) && Inv(Run(st, before + [op])) && Fits(r)
    requires Appended(Run(st, before), Run(st, before + [op]), r)
    requires |Run(st, before).log| <= n < |Run(st, before + [op]).log|
    ensures Recovers(st, before + [op], n, |before|)
  {
    var ops := before + [op];
    assert ops[..|before|] == before && ops[..|before| + 1] == ops;
    CutLast(Run(st, before), Run(st, ops), r, n);
  }

  /** Cut the log anywhere behind st, which may be a log just compacted: completed pushes
      are never lost and completed pulls never undone. */
  lemma {:induction false} CrashRecovers(st: State, ops: seq<Op>, n: nat) returns (j: nat)
    requires Inv(st) && AllAllowed(st, ops) && forall i :: 0 <= i < |ops| ==> !ops[i].Compact?
    requires |st.log| <= n <= |Run(st, ops).log|
    ensures Recovers(st, ops, n, j)
    decreases |ops|
  {
    RunKeeps(st, ops);
    if n == |Run(st, ops).log| {
      j := |ops|;
      RecoversAll(st, ops);
    } else {
      var before, op := ops[..|ops| - 1], ops[|ops| - 1];
      var st1 := Run(st, before);
      RunKeeps(st, before);
      StepAppends(st1, op);
      SplitLast(ops);
      if n < |st1.log| {
        j := CrashRecovers(st, before, n);
        RecoversLater(st, before, op, n, j);
      } else {
        var r :| Fits(r) && Appended(st1, Run(st, ops), r);
        j := |before|;
        RecoversBefore(st, before, op, n, r);
      }
    }
  }
}
