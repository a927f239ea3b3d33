/** The durable queue as an object (space/store.go): its fields, methods and replay loops,
    proved against the specification in Stores. */
module StoreQueue {
  import opened Wrappers
  import opened Numerals
  import opened StoreLog
  import opened Stores

  // ----- replay -----

  function Outs(recs: seq<Rec>): seq<Rec>
  {
    if recs == [] then []
    else Outs(recs[..|recs| - 1]) + if IsOut(recs[|recs| - 1]) then [recs[|recs| - 1]] else []
  }

  lemma OutsSnoc(recs: seq<Rec>, r: Rec)
    ensures Outs(recs + [r]) == Outs(recs) + if IsOut(r) then [r] else []
    ensures NextSeq(recs + [r]) == if IsOut(r) && r.seqNo >= NextSeq(recs) then r.seqNo + 1 else NextSeq(recs)
  {
    assert (recs + [r])[..|recs|] == recs;
  }

  lemma {:induction false} OutsRebuild(recs: seq<Rec>, dead: set<nat>)
    ensures Rebuild(Outs(recs), dead) == Rebuild(recs, dead)
  {
    if recs != [] {
      var r, before := recs[|recs| - 1], recs[..|recs| - 1];
      OutsRebuild(before, dead);
      if IsOut(r) {
        RebuildSnoc(Outs(before), r, dead);
      } else {
        assert Outs(before) + [] == Outs(before);
      }
    }
  }

  lemma {:induction false} OutsAreOuts(recs: seq<Rec>)
    ensures forall i :: 0 <= i < |Outs(recs)| ==> IsOut(Outs(recs)[i])
  {
    if recs != [] {
      OutsAreOuts(recs[..|recs| - 1]);
    }
  }

  datatype Found = Found(entries: seq<Rec>, tombs: set<nat>, seqNo: nat, ok: bool)

  /** The first loop: collect entries and tombstones until the log ends or tears. */
  method ReadLog(log: seq<byte>) returns (f: Found)
    ensures f.ok <==> Scan(log).stop != Bad
    ensures f.ok ==> f.entries == Outs(Scan(log).recs) && f.tombs == Tombs(Scan(log).recs) && f.seqNo == NextSeq(Scan(log).recs)
  {
    var rest := log;
    f := Found([], {}, 0, true);
    ghost var recs := [];
    while true
      invariant Scan(log).recs == recs + Scan(rest).recs && Scan(log).stop == Scan(rest).stop
      invariant f == Found(Outs(recs), Tombs(recs), NextSeq(recs), true)
      decreases |rest|
    {
      var step := ReadRecord(rest);
      match step
      case Eof => assert recs + [] == recs; return;
      case UnexpectedEof => assert recs + [] == recs; return;
      case Corrupt => f := f.(ok := false); return;
      case Read(r, size) =>
        OutsSnoc(recs, r);
        Snoc(recs, r);
        ConcatAssoc(recs, [r], Scan(rest[size..]).recs);
        if r.op == OP_OUT {
          f := f.(entries := f.entries + [r]);
          if r.seqNo >= f.seqNo { f := f.(seqNo := r.seqNo + 1); }
        } else if r.op == OP_IN {
          f := f.(tombs := f.tombs + {r.seqNo});
        }
        recs := recs + [r];
        rest := rest[size..];
    }
  }

  method Replay(log: seq<byte>) returns (st: Option<State>)
    ensures st == ReplaySpec(log)
  {
    var f := ReadLog(log);
    if !f.ok { return None; }
    ghost var recs := Scan(log).recs;
    OutsAreOuts(recs);
    var data: Queues := map[];
    for i := 0 to |f.entries|
      invariant data == Rebuild(f.entries[..i], f.tombs)
    {
      var e := f.entries[i];
      RebuildSnoc(f.entries[..i], e, f.tombs);
      assert f.entries[..i + 1] == f.entries[..i] + [e];
      if e.seqNo in f.tombs { continue; }
      data := data[e.key := (if e.key in data then data[e.key] else []) + [Record(e.seqNo, e.val)]];
    }
    assert f.entries[..|f.entries|] == f.entries;
    OutsRebuild(recs, f.tombs);
    return Some(State(data, f.seqNo, log));
  }

  // ----- the object -----

  class Store {
    var data: Queues
    var seqNo: nat
    var log: seq<byte>
    var closed: bool

    function View(): State
      reads this
    {
      State(data, seqNo, log)
    }

    constructor (st: State)
      ensures View() == st && !closed
    {
      data, seqNo, log, closed := st.data, st.seqNo, st.log, false;
    }

    /** Push appends the record, then queues it; a closed store refuses. */
    method Push(key: Key, val: seq<byte>) returns (ok: bool)
      modifies this`data, this`seqNo, this`log
      ensures ok <==> !closed
      ensures View() == if ok then PushSpec(old(View()), key, val) else old(View())
    {
      if closed { return false; }
      var rec := EncodeRecord(OP_OUT, seqNo, key, val);
      log := log + rec;
      data := data[key := (if key in data then data[key] else []) + [Record(seqNo, val)]];
      seqNo := seqNo + 1;
      return true;
    }

    /** Pullp, and Pull once an entry is there: the tombstone is written before the head
        leaves memory. */
    method Pull(key: Key) returns (v: Option<seq<byte>>)
      modifies this`data, this`log
      ensures v.Some? <==> !closed && QueueOf(old(data), key) != []
      ensures v.Some? ==> v.value == old(data)[key][0].val && View() == TakeSpec(old(View()), key)
      ensures v.None? ==> View() == old(View())
    {
      if closed || key !in data || data[key] == [] { return None; }
      var q := data[key];
      var head := q[0];
      var rec := EncodeRecord(OP_IN, head.seqNo, [], []);
      log := log + rec;
      var rest := q[1..];
      if rest == [] {
        data := data - {key};
      } else {
        data := data[key := rest];
      }
      return Some(head.val);
    }

    method Peek(key: Key) returns (v: Option<seq<byte>>)
      ensures v == if QueueOf(data, key) == [] then None else Some(data[key][0].val)
    {
      if key !in data || data[key] == [] { return None; }
      return Some(data[key][0].val);
    }

    /** Compact writes the live entries, key by key, to the log that replaces the old one. */
    method Compact(order: seq<Key>) returns (ok: bool)
      requires Visits(order, data)
      modifies this`log
      ensures ok <==> !closed
      ensures View() == if ok then CompactSpec(old(View()), order) else old(View())
    {
      if closed { return false; }
      var out: seq<byte> := [];
      for i := 0 to |order|
        invariant out == EncodedAll(CompactRecs(data, order[..i]))
        invariant log == old(log)
      {
        var part := WriteQueue(order[i], QueueOf(data, order[i]));
        out := out + part;
        ghost var before := order[..i];
        assert order[..i + 1][..i] == before;
        EncodedConcat(CompactRecs(data, before), OutRecs(order[i], QueueOf(data, order[i])));
      }
      assert order[..|order|] == order;
      log := out;
      return true;
    }

    method Close()
      modifies this`closed
      ensures closed
    {
      closed := true;
    }
  }

  method WriteQueue(key: Key, q: seq<Record>) returns (out: seq<byte>)
    ensures out == EncodedAll(OutRecs(key, q))
  {
    out := [];
    assert q[..0] == [];
    for i := 0 to |q|
      invariant out == EncodedAll(OutRecs(key, q[..i]))
    {
      var rec := EncodeRecord(OP_OUT, q[i].seqNo, key, q[i].val);
      out := out + rec;
      assert q[..i + 1][..i] == q[..i];
      AppendsTo(OutRecs(key, q[..i]), Rec(OP_OUT, q[i].seqNo, key, q[i].val));
    }
    assert q[..|q|] == q;
  }
}
