/** The durable store-and-forward queue (space/store.go): pushes and pulls appended to a
    log, compaction, and replay. */
module Stores {
  import opened Wrappers
  import opened Numerals
  import opened StoreLog

  type Key = seq<byte>

  datatype Record = Record(seqNo: nat, val: seq<byte>)

  type Queues = map<Key, seq<Record>>

  function QueueOf(data: Queues, key: Key): seq<Record>
  {
    if key in data then data[key] else []
  }

  function Enqueue(data: Queues, key: Key, rec: Record): Queues
  {
    data[key := QueueOf(data, key) + [rec]]
  }

  function Dequeue(data: Queues, key: Key): Queues
    requires QueueOf(data, key) != []
  {
    if |data[key]| == 1 then data - {key} else data[key := data[key][1..]]
  }

  // ----- replay -----

  predicate IsOut(r: Rec) { r.op == OP_OUT }

  function Tombs(recs: seq<Rec>): set<nat>
  {
    set i | 0 <= i < |recs| && recs[i].op == OP_IN :: recs[i].seqNo
  }

  /** replay's second loop: the entries no tombstone kills, queued in log order. */
  function Rebuild(recs: seq<Rec>, dead: set<nat>): (data: Queues)
  {
    if recs == [] then map[]
    else
      var r, before := recs[|recs| - 1], Rebuild(recs[..|recs| - 1], dead);
      if IsOut(r) && r.seqNo !in dead then Enqueue(before, r.key, Record(r.seqNo, r.val)) else before
  }

  function NextSeq(recs: seq<Rec>): nat
  {
    if recs == [] then 0
    else
      var r, before := recs[|recs| - 1], NextSeq(recs[..|recs| - 1]);
      if IsOut(r) && r.seqNo >= before then r.seqNo + 1 else before
  }

  datatype State = State(data: Queues, seqNo: nat, log: seq<byte>)

  function ReplaySpec(log: seq<byte>): Option<State>
  {
    var s := Scan(log);
    if s.stop == Bad then None else Some(State(Rebuild(s.recs, Tombs(s.recs)), NextSeq(s.recs), log))
  }

  // ----- operations -----

  function PushSpec(st: State, key: Key, val: seq<byte>): State
  {
    State(Enqueue(st.data, key, Record(st.seqNo, val)), st.seqNo + 1, st.log + Encoded(Rec(OP_OUT, st.seqNo, key, val)))
  }

  function TakeSpec(st: State, key: Key): State
    requires QueueOf(st.data, key) != []
  {
    st.(data := Dequeue(st.data, key), log := st.log + Encoded(Rec(OP_IN, st.data[key][0].seqNo, [], [])))
  }

  function OutRecs(key: Key, q: seq<Record>): seq<Rec>
  {
    if q == [] then [] else OutRecs(key, q[..|q| - 1]) + [Rec(OP_OUT, q[|q| - 1].seqNo, key, q[|q| - 1].val)]
  }

  /** Compact's rewritten log, visiting the keys in the given order. */
  function CompactRecs(data: Queues, order: seq<Key>): seq<Rec>
  {
    if order == [] then []
    else CompactRecs(data, order[..|order| - 1]) + OutRecs(order[|order| - 1], QueueOf(data, order[|order| - 1]))
  }

  predicate KeysOnce(order: seq<Key>, data: Queues)
  {
    order == [] || (
      var k, before := order[|order| - 1], order[..|order| - 1];
      k in data && k !in before && KeysOnce(before, data))
  }

  /** Go visits a map's keys in no fixed order, each once. */
  predicate Visits(order: seq<Key>, data: Queues)
  {
    KeysOnce(order, data) && forall k :: k in data ==> k in order
  }

  function CompactSpec(st: State, order: seq<Key>): State
  {
    st.(log := EncodedAll(CompactRecs(st.data, order)))
  }

  // ----- the invariant -----

  function OutSeqs(recs: seq<Rec>): set<nat>
  {
    set i | 0 <= i < |recs| && IsOut(recs[i]) :: recs[i].seqNo
  }

  /** Entry numbers are never reused within a log, and a tombstone follows the entry it kills. */
  ghost predicate Lawful(recs: seq<Rec>)
  {
    recs == [] || (
      var r, before := recs[|recs| - 1], recs[..|recs| - 1];
      && Lawful(before) && Fits(r)
      && if IsOut(r) then r.seqNo !in OutSeqs(before) else r.op == OP_IN && r.seqNo in OutSeqs(before))
  }

  ghost predicate Below(recs: seq<Rec>, n: nat)
  {
    forall x :: x in OutSeqs(recs) ==> x < n
  }

  /** The log holds lawful records, numbered below the counter, that replay to the queues. */
  ghost predicate Inv(st: State)
  {
    var recs := Scan(st.log).recs;
    && st.log == EncodedAll(recs) && Lawful(recs) && Below(recs, st.seqNo)
    && st.data == Rebuild(recs, Tombs(recs))
  }

  // ----- small facts -----

  lemma {:induction false} LawfulFit(recs: seq<Rec>)
    requires Lawful(recs)
    ensures AllFit(recs)
  {
    if recs != [] {
      var before := recs[..|recs| - 1];
      LawfulFit(before);
      forall i | 0 <= i < |recs| ensures Fits(recs[i]) {
        if i < |recs| - 1 { assert before[i] == recs[i]; }
      }
    }
  }

  lemma Snoc(recs: seq<Rec>, r: Rec)
    ensures (recs + [r])[..|recs|] == recs && (recs + [r])[|recs|] == r
    ensures OutSeqs(recs + [r]) == OutSeqs(recs) + if IsOut(r) then {r.seqNo} else {}
    ensures Tombs(recs + [r]) == Tombs(recs) + if r.op == OP_IN then {r.seqNo} else {}
  {
    var all := recs + [r];
    assert all[..|recs|] == recs;
    forall x ensures x in OutSeqs(all) <==> x in OutSeqs(recs) || (IsOut(r) && x == r.seqNo) {
      if x in OutSeqs(recs) {
        var i :| 0 <= i < |recs| && IsOut(recs[i]) && recs[i].seqNo == x;
        assert all[i] == recs[i];
      }
      if IsOut(r) && x == r.seqNo { assert all[|recs|] == r; }
    }
    forall x ensures x in Tombs(all) <==> x in Tombs(recs) || (r.op == OP_IN && x == r.seqNo) {
      if x in Tombs(recs) {
        var i :| 0 <= i < |recs| && recs[i].op == OP_IN && recs[i].seqNo == x;
        assert all[i] == recs[i];
      }
      if r.op == OP_IN && x == r.seqNo { assert all[|recs|] == r; }
    }
  }

  lemma {:induction false} TombsHaveEntries(recs: seq<Rec>)
    requires Lawful(recs)
    ensures Tombs(recs) <= OutSeqs(recs)
  {
    if recs != [] {
      var r, before := recs[|recs| - 1], recs[..|recs| - 1];
      TombsHaveEntries(before);
      Snoc(before, r);
      assert before + [r] == recs;
    }
  }

  /** What is written scans back. */
  lemma ScanLog(recs: seq<Rec>)
    requires AllFit(recs)
    ensures Scan(EncodedAll(recs)).recs == recs && Scan(EncodedAll(recs)).stop == Clean
  {
    ScanWritten(recs, []);
    assert EncodedAll(recs) + [] == EncodedAll(recs);
    assert recs + [] == recs;
  }

  lemma AppendsTo(recs: seq<Rec>, r: Rec)
    ensures EncodedAll(recs + [r]) == EncodedAll(recs) + Encoded(r)
  {
    EncodedConcat(recs, [r]);
    assert EncodedAll([r]) == Encoded(r) + EncodedAll([]);
    assert EncodedAll([r]) == Encoded(r);
  }

  /** A record that does not mention a number leaves what is rebuilt without it alone. */
  lemma {:induction false} RebuildIgnores(recs: seq<Rec>, dead: set<nat>, more: set<nat>)
    requires more !! OutSeqs(recs)
    ensures Rebuild(recs, dead + more) == Rebuild(recs, dead)
  {
    if recs != [] {
      var r, before := recs[|recs| - 1], recs[..|recs| - 1];
      Snoc(before, r);
      assert before + [r] == recs;
      RebuildIgnores(before, dead, more);
    }
  }

  // ----- Push -----

  lemma InvOf(st: State, recs: seq<Rec>)
    requires Lawful(recs) && Below(recs, st.seqNo)
    requires st.log == EncodedAll(recs) && st.data == Rebuild(recs, Tombs(recs))
    ensures Inv(st) && Scan(st.log).recs == recs && Scan(st.log).stop == Clean
  {
    LawfulFit(recs);
    ScanLog(recs);
  }

  lemma RebuildSnoc(recs: seq<Rec>, r: Rec, dead: set<nat>)
    ensures Rebuild(recs + [r], dead) ==
            if IsOut(r) && r.seqNo !in dead then Enqueue(Rebuild(recs, dead), r.key, Record(r.seqNo, r.val))
            else Rebuild(recs, dead)
  {
    assert (recs + [r])[..|recs|] == recs;
  }

  /** No old tombstone kills a new entry. */
  lemma PushRebuilds(recs: seq<Rec>, r: Rec)
    requires Lawful(recs) && IsOut(r) && r.seqNo !in OutSeqs(recs)
    ensures Rebuild(recs + [r], Tombs(recs + [r])) == Enqueue(Rebuild(recs, Tombs(recs)), r.key, Record(r.seqNo, r.val))
  {
    Snoc(recs, r);
    TombsHaveEntries(recs);
    RebuildSnoc(recs, r, Tombs(recs));
    assert Tombs(recs + [r]) == Tombs(recs);
  }

  lemma PushKeeps(st: State, key: Key, val: seq<byte>)
    requires Inv(st) && Fits(Rec(OP_OUT, st.seqNo, key, val))
    ensures Inv(PushSpec(st, key, val))
    ensures Scan(PushSpec(st, key, val).log).recs == Scan(st.log).recs + [Rec(OP_OUT, st.seqNo, key, val)]
  {
    var recs, r := Scan(st.log).recs, Rec(OP_OUT, st.seqNo, key, val);
    Snoc(recs, r);
    PushRebuilds(recs, r);
    AppendsTo(recs, r);
    InvOf(PushSpec(st, key, val), recs + [r]);
  }

  // ----- Pull -----

  predicate NoEmpty(data: Queues) { forall k :: k in data ==> data[k] != [] }

  lemma {:induction false} RebuildNoEmpty(recs: seq<Rec>, dead: set<nat>)
    ensures NoEmpty(Rebuild(recs, dead))
  {
    if recs != [] {
      RebuildNoEmpty(recs[..|recs| - 1], dead);
    }
  }

  /** Queued entries come from the log, and no two share a number. */
  ghost predicate Traced(data: Queues, outs: set<nat>)
  {
    && (forall k, i :: k in data && 0 <= i < |data[k]| ==> data[k][i].seqNo in outs)
    && (forall k, i, l, j :: k in data && l in data && 0 <= i < |data[k]| && 0 <= j < |data[l]| ==>
          data[k][i].seqNo == data[l][j].seqNo ==> k == l && i == j)
  }

  lemma EnqueueTraced(data: Queues, outs: set<nat>, key: Key, rec: Record)
    requires Traced(data, outs) && rec.seqNo !in outs
    ensures Traced(Enqueue(data, key, rec), outs + {rec.seqNo})
  {
  }

  lemma {:induction false} RebuildTraced(recs: seq<Rec>, dead: set<nat>)
    requires Lawful(recs)
    ensures Traced(Rebuild(recs, dead), OutSeqs(recs))
  {
    if recs != [] {
      var r, before := recs[|recs| - 1], recs[..|recs| - 1];
      Snoc(before, r);
      assert before + [r] == recs;
      RebuildTraced(before, dead);
      if IsOut(r) && r.seqNo !in dead {
        EnqueueTraced(Rebuild(before, dead), OutSeqs(before), r.key, Record(r.seqNo, r.val));
      }
    }
  }

  lemma DequeueLater(data: Queues, key: Key, k: Key, rec: Record)
    requires QueueOf(data, key) != []
    ensures QueueOf(Enqueue(data, k, rec), key) != []
    ensures Enqueue(data, k, rec)[key][0] == data[key][0]
    ensures NoEmpty(data) ==> Dequeue(Enqueue(data, k, rec), key) == Enqueue(Dequeue(data, key), k, rec)
  {
    if k == key {
      assert (data[key] + [rec])[1..] == data[key][1..] + [rec];
    }
  }

  lemma DequeueOnly(data: Queues, key: Key, rec: Record)
    requires key !in data
    ensures Enqueue(data, key, rec)[key] == [rec]
    ensures Dequeue(Enqueue(data, key, rec), key) == data
  {
  }

  /** The head stands before the last record: killing it commutes with queueing that. */
  lemma KillLater(before: seq<Rec>, r: Rec, dead: set<nat>, key: Key)
    requires QueueOf(Rebuild(before, dead), key) != [] && NoEmpty(Rebuild(before, dead))
    requires var was := Rebuild(before, dead); var h := was[key][0].seqNo;
             Rebuild(before, dead + {h}) == Dequeue(was, key) && (IsOut(r) ==> r.seqNo != h)
    ensures var data := Rebuild(before + [r], dead);
            QueueOf(data, key) != [] && Rebuild(before + [r], dead + {data[key][0].seqNo}) == Dequeue(data, key)
  {
    var was: Queues := Rebuild(before, dead);
    RebuildSnoc(before, r, dead);
    RebuildSnoc(before, r, dead + {was[key][0].seqNo});
    DequeueLater(was, key, r.key, Record(r.seqNo, r.val));
  }

  /** The last record is the head. */
  lemma KillOnly(before: seq<Rec>, r: Rec, dead: set<nat>, key: Key)
    requires key !in Rebuild(before, dead) && IsOut(r) && r.seqNo !in dead && r.key == key && r.seqNo !in OutSeqs(before)
    ensures var data := Rebuild(before + [r], dead);
            QueueOf(data, key) != [] && Rebuild(before + [r], dead + {data[key][0].seqNo}) == Dequeue(data, key)
  {
    RebuildSnoc(before, r, dead);
    RebuildSnoc(before, r, dead + {r.seqNo});
    RebuildIgnores(before, dead, {r.seqNo});
    DequeueOnly(Rebuild(before, dead), key, Record(r.seqNo, r.val));
  }

  /** Killing the head's number removes exactly the head. */
  lemma {:induction false} KillHead(recs: seq<Rec>, dead: set<nat>, key: Key)
    requires Lawful(recs) && QueueOf(Rebuild(recs, dead), key) != []
    ensures var data := Rebuild(recs, dead);
            Rebuild(recs, dead + {data[key][0].seqNo}) == Dequeue(data, key)
  {
    var r, before := recs[|recs| - 1], recs[..|recs| - 1];
    SplitLast(recs);
    RebuildSnoc(before, r, dead);
    RebuildNoEmpty(before, dead);
    if QueueOf(Rebuild(before, dead), key) != [] {
      RebuildTraced(before, dead);
      KillHead(before, dead, key);
      KillLater(before, r, dead, key);
    } else {
      KillOnly(before, r, dead, key);
    }
  }

  lemma TakeKeeps(st: State, key: Key)
    requires Inv(st) && QueueOf(st.data, key) != []
    ensures Inv(TakeSpec(st, key))
    ensures Scan(TakeSpec(st, key).log).recs == Scan(st.log).recs + [Rec(OP_IN, st.data[key][0].seqNo, [], [])]
  {
    var recs, h := Scan(st.log).recs, st.data[key][0].seqNo;
    var r := Rec(OP_IN, h, [], []);
    Snoc(recs, r);
    RebuildTraced(recs, Tombs(recs));
    KillHead(recs, Tombs(recs), key);
    AppendsTo(recs, r);
    LawfulFit(recs);
    TombFits(recs, h);
    InvOf(TakeSpec(st, key), recs + [r]);
  }

  lemma TombFits(recs: seq<Rec>, h: nat)
    requires AllFit(recs) && h in OutSeqs(recs)
    ensures Fits(Rec(OP_IN, h, [], []))
  {
    Widths();
  }

  // ----- Compact -----

  ghost predicate AllStorable(data: Queues)
  {
    forall k, i :: k in data && 0 <= i < |data[k]| ==> Fits(Rec(OP_OUT, data[k][i].seqNo, k, data[k][i].val))
  }

  lemma {:induction false} RebuildStorable(recs: seq<Rec>, dead: set<nat>)
    requires Lawful(recs)
    ensures AllStorable(Rebuild(recs, dead))
  {
    if recs != [] {
      var r, before := recs[|recs| - 1], recs[..|recs| - 1];
      RebuildStorable(before, dead);
      if IsOut(r) && r.seqNo !in dead {
        EnqueueStorable(Rebuild(before, dead), r);
      }
    }
  }

  lemma EnqueueStorable(data: Queues, r: Rec)
    requires AllStorable(data) && IsOut(r) && Fits(r)
    ensures AllStorable(Enqueue(data, r.key, Record(r.seqNo, r.val)))
  {
    assert r == Rec(OP_OUT, r.seqNo, r.key, r.val);
  }

  function Numbers(q: seq<Record>): set<nat> { set i | 0 <= i < |q| :: q[i].seqNo }

  /** A queue whose entries are new to the log so far. */
  ghost predicate Appendable(recs: seq<Rec>, key: Key, q: seq<Record>)
  {
    && (forall i :: 0 <= i < |q| ==> q[i].seqNo !in OutSeqs(recs) && Fits(Rec(OP_OUT, q[i].seqNo, key, q[i].val)))
    && (forall i, j :: 0 <= i < j < |q| ==> q[i].seqNo != q[j].seqNo)
  }

  lemma NumbersSnoc(q: seq<Record>, x: Record)
    ensures Numbers(q + [x]) == Numbers(q) + {x.seqNo}
  {
    forall n ensures n in Numbers(q + [x]) <==> n in Numbers(q) || n == x.seqNo {
      if n in Numbers(q) {
        var i :| 0 <= i < |q| && q[i].seqNo == n;
        assert (q + [x])[i] == q[i];
      }
      if n == x.seqNo { assert (q + [x])[|q|] == x; }
    }
  }

  lemma AppendableLast(recs: seq<Rec>, key: Key, q: seq<Record>, x: Record)
    requires Appendable(recs, key, q + [x])
    ensures Appendable(recs, key, q) && x.seqNo !in OutSeqs(recs) + Numbers(q)
    ensures Fits(Rec(OP_OUT, x.seqNo, key, x.val))
  {
    var all := q + [x];
    assert all[|q|] == x;
    forall i | 0 <= i < |q| ensures all[i] == q[i] {}
  }

  lemma LawfulSnoc(recs: seq<Rec>, r: Rec)
    requires Lawful(recs) && IsOut(r) && Fits(r) && r.seqNo !in OutSeqs(recs)
    ensures Lawful(recs + [r])
  {
    assert (recs + [r])[..|recs|] == recs;
  }

  ghost predicate Extends(all: seq<Rec>, recs: seq<Rec>, added: set<nat>)
  {
    Lawful(all) && OutSeqs(all) == OutSeqs(recs) + added && Tombs(all) == Tombs(recs)
  }

  lemma ExtendsSnoc(all: seq<Rec>, recs: seq<Rec>, added: set<nat>, r: Rec)
    requires Extends(all, recs, added) && IsOut(r) && Fits(r) && r.seqNo !in OutSeqs(recs) + added
    ensures Extends(all + [r], recs, added + {r.seqNo})
  {
    Snoc(all, r);
    LawfulSnoc(all, r);
  }

  lemma {:induction false} OutRecsAppended(recs: seq<Rec>, key: Key, q: seq<Record>)
    requires Lawful(recs) && Appendable(recs, key, q)
    ensures Extends(recs + OutRecs(key, q), recs, Numbers(q))
  {
    if q == [] {
      assert recs + OutRecs(key, q) == recs;
      assert Numbers(q) == {};
    } else {
      var last, before := q[|q| - 1], q[..|q| - 1];
      SplitLast(q);
      AppendableLast(recs, key, before, last);
      OutRecsAppended(recs, key, before);
      var r := Rec(OP_OUT, last.seqNo, key, last.val);
      ConcatAssoc(recs, OutRecs(key, before), [r]);
      NumbersSnoc(before, last);
      ExtendsSnoc(recs + OutRecs(key, before), recs, Numbers(before), r);
    }
  }

  lemma {:induction false} OutRecsRebuilt(recs: seq<Rec>, key: Key, q: seq<Record>)
    requires key !in Rebuild(recs, {}) && q != []
    ensures Rebuild(recs + OutRecs(key, q), {}) == Rebuild(recs, {})[key := q]
  {
    var last, before := q[|q| - 1], q[..|q| - 1];
    var r := Rec(OP_OUT, last.seqNo, key, last.val);
    assert q == before + [last];
    ConcatAssoc(recs, OutRecs(key, before), [r]);
    RebuildSnoc(recs + OutRecs(key, before), r, {});
    if before == [] {
      assert recs + OutRecs(key, before) == recs;
    } else {
      OutRecsRebuilt(recs, key, before);
    }
  }

  function Chosen(data: Queues, order: seq<Key>): Queues
  {
    map k | k in order && k in data :: data[k]
  }

  function ChosenNumbers(data: Queues, order: seq<Key>): set<nat>
  {
    if order == [] then {}
    else ChosenNumbers(data, order[..|order| - 1]) + Numbers(QueueOf(data, order[|order| - 1]))
  }

  lemma {:induction false} NumbersApart(data: Queues, outs: set<nat>, order: seq<Key>, k: Key)
    requires Traced(data, outs) && k in data && k !in order
    ensures ChosenNumbers(data, order) !! Numbers(data[k])
  {
    if order != [] {
      NumbersApart(data, outs, order[..|order| - 1], k);
      assert order[|order| - 1] != k;
    }
  }

  /** The compacted log of the keys visited so far. */
  ghost predicate Compacts(data: Queues, outs: set<nat>, order: seq<Key>, recs: seq<Rec>)
  {
    && Lawful(recs) && Tombs(recs) == {} && OutSeqs(recs) == ChosenNumbers(data, order) <= outs
    && Rebuild(recs, {}) == Chosen(data, order)
  }

  lemma QueueAppendable(data: Queues, outs: set<nat>, order: seq<Key>, recs: seq<Rec>, k: Key)
    requires Traced(data, outs) && AllStorable(data) && k in data && k !in order
    requires OutSeqs(recs) == ChosenNumbers(data, order)
    ensures Appendable(recs, k, data[k]) && Numbers(data[k]) <= outs
  {
    NumbersApart(data, outs, order, k);
    forall i | 0 <= i < |data[k]| ensures data[k][i].seqNo !in OutSeqs(recs) {
      assert data[k][i].seqNo in Numbers(data[k]);
    }
  }

  lemma ChosenSnoc(data: Queues, order: seq<Key>, k: Key)
    requires k in data
    ensures Chosen(data, order + [k]) == Chosen(data, order)[k := data[k]]
    ensures ChosenNumbers(data, order + [k]) == ChosenNumbers(data, order) + Numbers(data[k])
  {
    assert (order + [k])[..|order|] == order;
  }

  lemma CompactStep(data: Queues, outs: set<nat>, order: seq<Key>, recs: seq<Rec>, k: Key)
    requires Traced(data, outs) && AllStorable(data) && NoEmpty(data) && Compacts(data, outs, order, recs)
    requires k in data && k !in order
    ensures Compacts(data, outs, order + [k], recs + OutRecs(k, data[k]))
  {
    QueueAppendable(data, outs, order, recs, k);
    OutRecsAppended(recs, k, data[k]);
    OutRecsRebuilt(recs, k, data[k]);
    ChosenSnoc(data, order, k);
  }

  lemma CompactNothing(data: Queues, outs: set<nat>)
    ensures Compacts(data, outs, [], [])
  {
    assert Tombs([]) == {} && OutSeqs([]) == {};
    assert Rebuild([], {}) == Chosen(data, []);
  }

  lemma {:induction false} CompactLawful(data: Queues, outs: set<nat>, order: seq<Key>)
    requires Traced(data, outs) && AllStorable(data) && NoEmpty(data) && KeysOnce(order, data)
    ensures Compacts(data, outs, order, CompactRecs(data, order))
  {
    if order == [] {
      CompactNothing(data, outs);
    } else {
      var k, before := order[|order| - 1], order[..|order| - 1];
      CompactLawful(data, outs, before);
      SplitLast(order);
      CompactStep(data, outs, before, CompactRecs(data, before), k);
    }
  }

  /** Compaction, whatever order the keys come in, keeps the queues and the invariant. */
  lemma CompactKeeps(st: State, order: seq<Key>)
    requires Inv(st) && Visits(order, st.data)
    ensures Inv(CompactSpec(st, order)) && Tombs(Scan(CompactSpec(st, order).log).recs) == {}
  {
    var recs := Scan(st.log).recs;
    RebuildTraced(recs, Tombs(recs));
    RebuildStorable(recs, Tombs(recs));
    RebuildNoEmpty(recs, Tombs(recs));
    CompactLawful(st.data, OutSeqs(recs), order);
    AllChosen(st.data, order);
    InvOf(CompactSpec(st, order), CompactRecs(st.data, order));
  }

  lemma AllChosen(data: Queues, order: seq<Key>)
    requires Visits(order, data)
    ensures Chosen(data, order) == data
  {
  }

  // ----- reopening -----

  lemma {:induction false} NextSeqBounds(recs: seq<Rec>, n: nat)
    requires Below(recs, n)
    ensures Below(recs, NextSeq(recs)) && NextSeq(recs) <= n
  {
    if recs != [] {
      var r, before := recs[|recs| - 1], recs[..|recs| - 1];
      Snoc(before, r);
      assert before + [r] == recs;
      NextSeqBounds(before, n);
    }
  }

  /** Replaying the log gives back exactly the in-memory queues. */
  lemma ReopenKeeps(st: State)
    requires Inv(st)
    ensures ReplaySpec(st.log).Some? && Inv(ReplaySpec(st.log).value)
    ensures ReplaySpec(st.log).value.data == st.data && ReplaySpec(st.log).value.seqNo <= st.seqNo
  {
    var recs := Scan(st.log).recs;
    InvOf(st, recs);
    NextSeqBounds(recs, st.seqNo);
    InvOf(ReplaySpec(st.log).value, recs);
  }
}
