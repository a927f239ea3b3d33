/** The log of any run of the durable queue (space/store.go), compacted or not, cut at any
    octet: what replay recovers from it. */
module StoreCuts {
  import opened Numerals
  import opened StoreLog
  import opened Stores
  import opened StoreRuns

  /** The log after ops, cut to its first n octets, replays its whole records. */
  lemma CutAnyRun(ops: seq<Op>, n: nat)
    requires AllAllowed(EMPTY, ops) && n <= |Run(EMPTY, ops).log|
    ensures var recs := Scan(Run(EMPTY, ops).log).recs; var kept := recs[..Whole(recs, n)];
            var cut := ReplaySpec(Run(EMPTY, ops).log[..n]);
            cut.Some? && cut.value.data == Rebuild(kept, Tombs(kept))
  {
    EmptyInv();
    RunKeeps(EMPTY, ops);
    var recs := Scan(Run(EMPTY, ops).log).recs;
    LawfulFit(recs);
    CutScans(recs, n);
  }

  // ----- tombstones kill from the front -----

  /** The entries under a key, killed or not. */
  function Entries(recs: seq<Rec>, key: Key): seq<Record> { QueueOf(Rebuild(recs, {}), key) }

  function Alive(recs: seq<Rec>, key: Key): seq<Record> { QueueOf(Rebuild(recs, Tombs(recs)), key) }

  /** What is alive under the key is its entries but for the first y. */
  predicate Trimmed(recs: seq<Rec>, key: Key, y: nat)
  {
    y <= |Entries(recs, key)| && Alive(recs, key) == Entries(recs, key)[y..]
  }

  /** So it is for every prefix of the log. */
  ghost predicate AllTrimmed(recs: seq<Rec>, key: Key)
  {
    (exists y: nat :: Trimmed(recs, key, y)) && (recs == [] || AllTrimmed(recs[..|recs| - 1], key))
  }

  lemma TrimmedPush(recs: seq<Rec>, r: Rec, key: Key, y: nat)
    requires Lawful(recs) && IsOut(r) && r.seqNo !in OutSeqs(recs) && Trimmed(recs, key, y)
    ensures Trimmed(recs + [r], key, y)
  {
    PushRebuilds(recs, r);
    RebuildSnoc(recs, r, {});
  }

  /** Pulling under one key trims that key by one and leaves the others. */
  lemma TrimmedTake(recs: seq<Rec>, from: Key, key: Key, y: nat)
    requires Lawful(recs) && Alive(recs, from) != [] && Trimmed(recs, key, y)
    ensures Trimmed(recs + [Rec(OP_IN, Alive(recs, from)[0].seqNo, [], [])], key, if key == from then y + 1 else y)
  {
    var h := Alive(recs, from)[0].seqNo;
    var r := Rec(OP_IN, h, [], []);
    KillHead(recs, Tombs(recs), from);
    Snoc(recs, r);
    RebuildSnoc(recs, r, {});
    RebuildSnoc(recs, r, Tombs(recs) + {h});
    DropOne(Entries(recs, key), y);
  }

  lemma DropOne<T>(s: seq<T>, y: nat)
    requires y <= |s|
    ensures s[y..] != [] ==> s[y..][1..] == s[y + 1..]
  {
  }

  lemma AllTrimmedSnoc(recs: seq<Rec>, r: Rec, key: Key, y: nat)
    requires AllTrimmed(recs, key) && Trimmed(recs + [r], key, y)
    ensures AllTrimmed(recs + [r], key)
  {
    assert (recs + [r])[..|recs|] == recs;
  }

  lemma {:induction false} NoTombsTrimmed(recs: seq<Rec>, key: Key)
    requires Tombs(recs) == {}
    ensures AllTrimmed(recs, key)
  {
    assert Entries(recs, key)[0..] == Entries(recs, key);
    assert Trimmed(recs, key, 0);
    if recs != [] {
      SplitLast(recs);
      Snoc(recs[..|recs| - 1], recs[|recs| - 1]);
      NoTombsTrimmed(recs[..|recs| - 1], key);
    }
  }

  lemma {:induction false} PrefixTrimmed(recs: seq<Rec>, key: Key, k: nat) returns (y: nat)
    requires AllTrimmed(recs, key) && k <= |recs|
    ensures Trimmed(recs[..k], key, y)
    decreases |recs|
  {
    if k == |recs| {
      assert recs[..k] == recs;
      y :| Trimmed(recs, key, y);
    } else {
      y := PrefixTrimmed(recs[..|recs| - 1], key, k);
      assert recs[..|recs| - 1][..k] == recs[..k];
    }
  }

  lemma {:induction false} PrefixEntries(recs: seq<Rec>, key: Key, k: nat)
    requires k <= |recs|
    ensures Entries(recs[..k], key) <= Entries(recs, key)
    decreases |recs|
  {
    if k == |recs| {
      assert recs[..k] == recs;
    } else {
      PrefixEntries(recs[..|recs| - 1], key, k);
      assert recs[..|recs| - 1][..k] == recs[..k];
    }
  }

  // ----- over every run -----

  /** The log's entries under a key are the last of those pushed, whatever was compacted
      away, and its tombstones kill from the front. */
  ghost predicate Faithful(recs: seq<Rec>, pushed: seq<seq<byte>>, key: Key)
  {
    AllTrimmed(recs, key) && exists c: nat :: LastOf(Values(Entries(recs, key)), pushed, c)
  }

  predicate LastOf<T(==)>(s: seq<T>, all: seq<T>, c: nat) { c <= |all| && s == all[c..] }

  lemma PushFaithful(recs: seq<Rec>, r: Rec, pushed: seq<seq<byte>>, key: Key)
    requires Lawful(recs) && IsOut(r) && r.seqNo !in OutSeqs(recs) && Faithful(recs, pushed, key)
    ensures Faithful(recs + [r], pushed + if r.key == key then [r.val] else [], key)
  {
    var y: nat :| Trimmed(recs, key, y);
    TrimmedPush(recs, r, key, y);
    AllTrimmedSnoc(recs, r, key, y);
    var c: nat :| LastOf(Values(Entries(recs, key)), pushed, c);
    OneMoreEntry(recs, r, key);
    LastOfMore(Values(Entries(recs, key)), pushed, if r.key == key then [r.val] else [], c);
  }

  lemma OneMoreEntry(recs: seq<Rec>, r: Rec, key: Key)
    requires IsOut(r)
    ensures Values(Entries(recs + [r], key)) == Values(Entries(recs, key)) + if r.key == key then [r.val] else []
  {
    RebuildSnoc(recs, r, {});
  }

  lemma LastOfMore<T>(s: seq<T>, all: seq<T>, more: seq<T>, c: nat)
    requires LastOf(s, all, c)
    ensures LastOf(s + more, all + more, c)
  {
  }

  lemma TakeFaithful(recs: seq<Rec>, from: Key, pushed: seq<seq<byte>>, key: Key)
    requires Lawful(recs) && Alive(recs, from) != [] && Faithful(recs, pushed, key)
    ensures Faithful(recs + [Rec(OP_IN, Alive(recs, from)[0].seqNo, [], [])], pushed, key)
  {
    var r := Rec(OP_IN, Alive(recs, from)[0].seqNo, [], []);
    var y: nat :| Trimmed(recs, key, y);
    TrimmedTake(recs, from, key, y);
    AllTrimmedSnoc(recs, r, key, if key == from then y + 1 else y);
    SameEntries(recs, r, key);
  }

  lemma SameEntries(recs: seq<Rec>, r: Rec, key: Key)
    requires !IsOut(r)
    ensures Entries(recs + [r], key) == Entries(recs, key)
  {
    RebuildSnoc(recs, r, {});
  }

  lemma CompactFaithful(recs: seq<Rec>, pulled: seq<seq<byte>>, pushed: seq<seq<byte>>, key: Key)
    requires Tombs(recs) == {} && pulled + Values(Alive(recs, key)) == pushed
    ensures Faithful(recs, pushed, key)
  {
    NoTombsTrimmed(recs, key);
    assert LastOf(Values(Entries(recs, key)), pushed, |pulled|);
  }

  function Recs(st: State): seq<Rec> { Scan(st.log).recs }

  lemma {:induction false} RunFaithful(ops: seq<Op>, key: Key)
    requires AllAllowed(EMPTY, ops)
    ensures Faithful(Recs(Run(EMPTY, ops)), Pushed(ops, key), key)
  {
    EmptyInv();
    if ops == [] {
      ScanLog([]);
      NoTombsTrimmed([], key);
      assert LastOf(Values(Entries([], key)), [], 0);
    } else {
      var before, op := ops[..|ops| - 1], ops[|ops| - 1];
      var st := Run(EMPTY, before);
      RunFaithful(before, key);
      RunKeeps(EMPTY, before);
      StoreIsFifo(before, key);
      StepFaithful(st, op, Pulled(EMPTY, before, key), Pushed(before, key), key);
    }
  }

  lemma StepFaithful(st: State, op: Op, pulled: seq<seq<byte>>, pushed: seq<seq<byte>>, key: Key)
    requires Inv(st) && Allowed(st, op) && Faithful(Recs(st), pushed, key) && pulled + Values(QueueOf(st.data, key)) == pushed
    ensures Faithful(Recs(StoreRuns.Step(st, op)), pushed + if op.Push? && op.key == key then [op.val] else [], key)
  {
    assert pushed + [] == pushed;
    match op
    case Push(k, val) =>
      PushKeeps(st, k, val);
      PushFaithful(Recs(st), Rec(OP_OUT, st.seqNo, k, val), pushed, key);
    case Pull(k) =>
      if QueueOf(st.data, k) != [] {
        TakeKeeps(st, k);
        TakeFaithful(Recs(st), k, pushed, key);
      }
    case Compact(order) =>
      CompactKeeps(st, order);
      CompactFaithful(Recs(CompactSpec(st, order)), pulled, pushed, key);
    case Reopen =>
  }

  /** Whatever the run and wherever its log is cut, replay succeeds and recovers under each
      key consecutive values as they were pushed: none reordered, repeated or made up, and
      none missing from between two that are there. */
  lemma CutIsSegment(ops: seq<Op>, n: nat, key: Key) returns (a: nat, b: nat)
    requires AllAllowed(EMPTY, ops) && n <= |Run(EMPTY, ops).log|
    ensures a <= b <= |Pushed(ops, key)|
    ensures var cut := ReplaySpec(Run(EMPTY, ops).log[..n]);
            cut.Some? && Values(QueueOf(cut.value.data, key)) == Pushed(ops, key)[a..b]
  {
    CutAnyRun(ops, n);
    RunFaithful(ops, key);
    var recs := Recs(Run(EMPTY, ops));
    a, b := PrefixIsSegment(recs, Pushed(ops, key), key, Whole(recs, n));
  }

  lemma PrefixIsSegment(recs: seq<Rec>, pushed: seq<seq<byte>>, key: Key, k: nat) returns (a: nat, b: nat)
    requires Faithful(recs, pushed, key) && k <= |recs|
    ensures a <= b <= |pushed| && Values(Alive(recs[..k], key)) == pushed[a..b]
  {
    var y := PrefixTrimmed(recs, key, k);
    PrefixEntries(recs, key, k);
    var c: nat :| LastOf(Values(Entries(recs, key)), pushed, c);
    a, b := Segment(Entries(recs, key), Entries(recs[..k], key), Alive(recs[..k], key), pushed, c, y);
  }

  lemma Segment(all: seq<Record>, part: seq<Record>, alive: seq<Record>, pushed: seq<seq<byte>>, c: nat, y: nat)
    returns (a: nat, b: nat)
    requires LastOf(Values(all), pushed, c) && part <= all && y <= |part| && alive == part[y..]
    ensures a <= b <= |pushed| && Values(alive) == pushed[a..b]
  {
    assert |Values(all)| == |all|;
    a, b := c + y, c + |part|;
    forall i | 0 <= i < |part| - y ensures Values(alive)[i] == pushed[a..b][i] {
      assert Values(all)[y + i] == pushed[c..][y + i];
    }
  }
}
