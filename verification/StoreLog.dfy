/** The record format of the durable queue's append-only log (space/store.go): encoding,
    reading back, and what a log cut at any octet reads back as. */
module StoreLog {
  import opened Wrappers
  import opened Numerals

  const OP_OUT: byte := 1
  const OP_IN: byte := 2

  datatype Rec = Rec(op: byte, seqNo: nat, key: seq<byte>, val: seq<byte>)

  // ----- encodeRecord -----

  function Payload(r: Rec): seq<byte>
  {
    ToBE(|r.key|, 4) + r.key + ToBE(|r.val|, 4) + r.val
  }

  function Body(r: Rec): (b: seq<byte>)
    ensures |b| >= 9
  {
    [r.op] + ToBE(r.seqNo, 8) + if r.op == OP_OUT then Payload(r) else []
  }

  /** Length prefix, then body; lengths keep 32 bits and the sequence number 64. */
  function Encoded(r: Rec): (b: seq<byte>)
    ensures |b| >= 13
  {
    ToBE(|Body(r)|, 4) + Body(r)
  }

  /** A record whose lengths and number the format can carry. */
  predicate Fits(r: Rec)
  {
    && r.seqNo < Pow(256, 8) && |Body(r)| < Pow(256, 4)
    && (r.op != OP_OUT ==> r.key == [] && r.val == [])
  }

  // ----- readRecord -----

  datatype Step = Read(r: Rec, size: nat) | Eof | UnexpectedEof | Corrupt

  function ParseBody(body: seq<byte>): (r: Option<Rec>)
    requires |body| >= 9
  {
    var op, seqNo := body[0], FromBE(body[1..9]);
    if op != OP_OUT then Some(Rec(op, seqNo, [], []))
    else if |body| < 13 then None
    else
      var kl := FromBE(body[9..13]);
      if |body| < 17 + kl then None else
        var vl := FromBE(body[13 + kl..17 + kl]);
        if |body| < 17 + kl + vl then None
        else Some(Rec(op, seqNo, body[13..13 + kl], body[17 + kl..17 + kl + vl]))
  }

  function ReadRecord(src: seq<byte>): (s: Step)
    ensures s.Read? ==> 13 <= s.size <= |src|
  {
    if src == [] then Eof
    else if |src| < 4 then UnexpectedEof
    else
      var n := FromBE(src[..4]);
      if n < 9 then Corrupt
      else if |src| < 4 + n then UnexpectedEof
      else
        var r := ParseBody(src[4..4 + n]);
        if r.None? then Corrupt else Read(r.value, 4 + n)
  }

  lemma Widths()
    ensures Pow(256, 4) == 0x1_0000_0000
  {
    assert Pow(256, 0) == 1;
    assert Pow(256, 1) == 256;
    assert Pow(256, 2) == 65536;
    assert Pow(256, 3) == 16777216;
  }

  lemma BodyParts(r: Rec)
    requires r.op == OP_OUT
    ensures var b, k := Body(r), |r.key|;
            && |b| == 17 + k + |r.val| && b[0] == OP_OUT && b[1..9] == ToBE(r.seqNo, 8)
            && b[9..13] == ToBE(k, 4) && b[13..13 + k] == r.key
            && b[13 + k..17 + k] == ToBE(|r.val|, 4) && b[17 + k..] == r.val
  {
    var head := [r.op] + ToBE(r.seqNo, 8);
    var k, p := |r.key|, Payload(r);
    assert Body(r) == head + p;
    assert p[0..4] == ToBE(k, 4) && p[4..4 + k] == r.key && p[4 + k..8 + k] == ToBE(|r.val|, 4) && p[8 + k..] == r.val;
    SliceOfSlice(Body(r), 9, |p|, 0, 4);
    SliceOfSlice(Body(r), 9, |p|, 4, 4 + k);
    SliceOfSlice(Body(r), 9, |p|, 4 + k, 8 + k);
    SliceOfSlice(Body(r), 9, |p|, 8 + k, |p|);
    assert Body(r)[9..9 + |p|] == p;
  }

  lemma BodyReads(r: Rec)
    requires Fits(r)
    ensures ParseBody(Body(r)) == Some(r)
  {
    FromBEToBE(r.seqNo, 8);
    if r.op == OP_OUT {
      OutBodyReads(r, Body(r));
    } else {
      assert Body(r)[1..9] == ToBE(r.seqNo, 8);
    }
  }

  lemma OutBodyReads(r: Rec, b: seq<byte>)
    requires r.op == OP_OUT && Fits(r) && b == Body(r)
    ensures ParseBody(b) == Some(r)
  {
    BodyParts(r);
    FromBEToBE(r.seqNo, 8);
    FromBEToBE(|r.key|, 4);
    FromBEToBE(|r.val|, 4);
    ParseParts(b, |r.key|, |r.val|);
  }

  lemma ParseParts(b: seq<byte>, kl: nat, vl: nat)
    requires |b| == 17 + kl + vl && b[0] == OP_OUT && FromBE(b[9..13]) == kl && FromBE(b[13 + kl..17 + kl]) == vl
    ensures ParseBody(b) == Some(Rec(OP_OUT, FromBE(b[1..9]), b[13..13 + kl], b[17 + kl..]))
  {
    assert b[17 + kl..17 + kl + vl] == b[17 + kl..];
  }

  /** readRecord undoes encodeRecord, whatever follows. */
  lemma RecordReads(r: Rec, rest: seq<byte>)
    requires Fits(r)
    ensures ReadRecord(Encoded(r) + rest) == Read(r, |Encoded(r)|)
  {
    var src, b := Encoded(r) + rest, Body(r);
    assert src[..4] == ToBE(|b|, 4);
    FromBEToBE(|b|, 4);
    assert src[4..4 + |b|] == b;
    BodyReads(r);
  }

  /** A record cut anywhere reads as the end of the log, never as corruption. */
  lemma CutRecordReads(r: Rec, n: nat)
    requires Fits(r) && n < |Encoded(r)|
    ensures ReadRecord(Encoded(r)[..n]) == if n == 0 then Eof else UnexpectedEof
  {
    if n >= 4 {
      assert Encoded(r)[..n][..4] == ToBE(|Body(r)|, 4);
      FromBEToBE(|Body(r)|, 4);
    }
  }

  // ----- the whole log -----

  datatype Stop = Clean | Torn | Bad

  datatype Scanned = Scanned(recs: seq<Rec>, stop: Stop)

  /** replay's first loop: every record up to the first that does not read. */
  function Scan(log: seq<byte>): (s: Scanned)
    decreases |log|
  {
    match ReadRecord(log)
    case Eof => Scanned([], Clean)
    case UnexpectedEof => Scanned([], Torn)
    case Corrupt => Scanned([], Bad)
    case Read(r, size) =>
      var s := Scan(log[size..]);
      Scanned([r] + s.recs, s.stop)
  }

  function EncodedAll(recs: seq<Rec>): seq<byte>
  {
    if recs == [] then [] else Encoded(recs[0]) + EncodedAll(recs[1..])
  }

  predicate AllFit(recs: seq<Rec>) { forall i :: 0 <= i < |recs| ==> Fits(recs[i]) }

  lemma {:induction false} EncodedConcat(a: seq<Rec>, b: seq<Rec>)
    ensures EncodedAll(a + b) == EncodedAll(a) + EncodedAll(b)
  {
    if a == [] {
      assert a + b == b;
    } else {
      EncodedConcat(a[1..], b);
      assert (a + b)[1..] == a[1..] + b;
      ConcatAssoc(Encoded(a[0]), EncodedAll(a[1..]), EncodedAll(b));
    }
  }

  lemma ScanStep(r: Rec, tail: seq<byte>)
    requires Fits(r)
    ensures Scan(Encoded(r) + tail).recs == [r] + Scan(tail).recs
    ensures Scan(Encoded(r) + tail).stop == Scan(tail).stop
  {
    RecordReads(r, tail);
    assert (Encoded(r) + tail)[|Encoded(r)|..] == tail;
  }

  /** Written records scan back, in order, with whatever follows them. */
  lemma {:induction false} ScanWritten(recs: seq<Rec>, rest: seq<byte>)
    requires AllFit(recs)
    ensures Scan(EncodedAll(recs) + rest).recs == recs + Scan(rest).recs
    ensures Scan(EncodedAll(recs) + rest).stop == Scan(rest).stop
  {
    if recs == [] {
      assert EncodedAll(recs) + rest == rest;
      assert recs + Scan(rest).recs == Scan(rest).recs;
    } else {
      var r, more := recs[0], recs[1..];
      ScanWritten(more, rest);
      ScanStep(r, EncodedAll(more) + rest);
      ConcatAssoc(Encoded(r), EncodedAll(more), rest);
      ConcatAssoc([r], more, Scan(rest).recs);
      HeadTail(recs);
    }
  }

  lemma HeadTail<T>(s: seq<T>)
    requires s != []
    ensures [s[0]] + s[1..] == s
  {
  }

  /** How many records lie whole within the first n octets. */
  function Whole(recs: seq<Rec>, n: nat): (k: nat)
    ensures k <= |recs|
  {
    if recs == [] || n < |Encoded(recs[0])| then 0 else 1 + Whole(recs[1..], n - |Encoded(recs[0])|)
  }

  /** Whole is the longest prefix of the records that fits. */
  lemma {:induction false} WholeIsLongest(recs: seq<Rec>, n: nat, k: nat)
    requires k <= |recs|
    ensures |EncodedAll(recs[..k])| <= n <==> k <= Whole(recs, n)
  {
    if k > 0 {
      assert recs[..k][0] == recs[0] && recs[..k][1..] == recs[1..][..k - 1];
      if n >= |Encoded(recs[0])| {
        WholeIsLongest(recs[1..], n - |Encoded(recs[0])|, k - 1);
      }
    }
  }

  /** Cut at any offset, the log scans to its whole records and stops as at an end. */
  lemma {:induction false} CutScans(recs: seq<Rec>, n: nat)
    requires AllFit(recs) && n <= |EncodedAll(recs)|
    ensures Scan(EncodedAll(recs)[..n]).recs == recs[..Whole(recs, n)]
    ensures Scan(EncodedAll(recs)[..n]).stop != Bad
  {
    if recs != [] {
      var r, log := recs[0], EncodedAll(recs);
      var size := |Encoded(r)|;
      if n < size {
        assert log[..n] == Encoded(r)[..n];
        CutRecordReads(r, n);
      } else {
        CutScans(recs[1..], n - size);
        var tail := EncodedAll(recs[1..])[..n - size];
        TakePast(Encoded(r), EncodedAll(recs[1..]), n);
        ScanStep(r, tail);
        TakeHead(recs, Whole(recs[1..], n - size));
      }
    }
  }

  lemma TakePast<T>(a: seq<T>, b: seq<T>, n: nat)
    requires |a| <= n <= |a + b|
    ensures (a + b)[..n] == a + b[..n - |a|]
  {
  }

  lemma TakeHead<T>(s: seq<T>, k: nat)
    requires s != [] && k < |s|
    ensures [s[0]] + s[1..][..k] == s[..k + 1]
  {
  }

  /** The log behind a tear: the first n octets of a record, and a record appended to them. */
  function Behind(torn: Rec, n: nat, next: Rec): (tail: seq<byte>)
    requires n <= |Encoded(torn)|
    ensures |tail| == n + |Encoded(next)|
  {
    Encoded(torn)[..n] + Encoded(next)
  }

  /** Reading the log from its start, one record after the other, comes to offset off. */
  predicate Reaches(log: seq<byte>, off: nat)
    decreases |log|
  {
    off == 0 || (
      var s := ReadRecord(log);
      s.Read? && s.size <= off && Reaches(log[s.size..], off - s.size))
  }

  lemma {:induction false} ReachesPast(recs: seq<Rec>, rest: seq<byte>, off: nat)
    requires AllFit(recs)
    ensures Reaches(EncodedAll(recs) + rest, |EncodedAll(recs)| + off) <==> Reaches(rest, off)
  {
    if recs == [] {
      assert EncodedAll(recs) + rest == rest;
    } else {
      var r, more := recs[0], recs[1..];
      ReachesPast(more, rest, off);
      ConcatAssoc(Encoded(r), EncodedAll(more), rest);
      RecordReads(r, EncodedAll(more) + rest);
      assert (Encoded(r) + (EncodedAll(more) + rest))[|Encoded(r)|..] == EncodedAll(more) + rest;
    }
  }

  /** What is read at a real tear, if anything, runs into the record behind it. */
  lemma TornReadsOver(torn: Rec, n: nat, next: Rec)
    requires Fits(torn) && 0 < n < |Encoded(torn)|
    ensures var s := ReadRecord(Behind(torn, n, next)); s.Read? ==> s.size > n
  {
    if n >= 4 {
      var tail := Behind(torn, n, next);
      assert tail[..4] == ToBE(|Body(torn)|, 4);
      FromBEToBE(|Body(torn)|, 4);
    }
  }

  lemma TearReached(torn: Rec, n: nat, next: Rec)
    requires Fits(torn) && n <= |Encoded(torn)|
    ensures Reaches(Behind(torn, n, next), n) <==> n == 0 || n == |Encoded(torn)|
  {
    if n == |Encoded(torn)| {
      assert Behind(torn, n, next) == Encoded(torn) + Encoded(next);
      RecordReads(torn, Encoded(next));
    } else if n > 0 {
      TornReadsOver(torn, n, next);
    }
  }

  /** What is whole of a record of which n octets are there. */
  function Kept(torn: Rec, n: nat): seq<Rec> { if n == |Encoded(torn)| then [torn] else [] }

  lemma EncodedOne(r: Rec)
    ensures EncodedAll([r]) == Encoded(r)
  {
    assert EncodedAll([r]) == Encoded(r) + EncodedAll([]);
    assert Encoded(r) + [] == Encoded(r);
  }

  lemma NoTear(torn: Rec, n: nat, next: Rec)
    requires n == 0 || n == |Encoded(torn)|
    ensures EncodedAll(Kept(torn, n) + [next]) == Behind(torn, n, next)
  {
    EncodedConcat(Kept(torn, n), [next]);
    EncodedOne(next);
    if n == 0 {
      assert Encoded(torn)[..n] == EncodedAll([]);
    } else {
      EncodedOne(torn);
      assert Encoded(torn)[..n] == Encoded(torn);
    }
  }

  lemma ScansWhole(recs: seq<Rec>, more: seq<Rec>)
    requires AllFit(recs) && AllFit(more)
    ensures Scan(EncodedAll(recs) + EncodedAll(more)) == Scanned(recs + more, Clean)
  {
    EncodedConcat(recs, more);
    ScanWritten(recs + more, []);
    assert EncodedAll(recs + more) + [] == EncodedAll(recs + more) && (recs + more) + [] == recs + more;
  }

  /** A record appended behind the first n octets of another is read in its place exactly
      when there is no tear: none of the other's octets are there, or all of them. Then
      replay goes on as if nothing had happened. */
  lemma AppendedIsRead(recs: seq<Rec>, torn: Rec, n: nat, next: Rec)
    requires AllFit(recs) && Fits(torn) && Fits(next) && n <= |Encoded(torn)|
    ensures var log := EncodedAll(recs) + Behind(torn, n, next); var whole := n == 0 || n == |Encoded(torn)|;
            && (Reaches(log, |EncodedAll(recs)| + n) <==> whole)
            && (whole ==> Scan(log) == Scanned(recs + (Kept(torn, n) + [next]), Clean))
  {
    ReachesPast(recs, Behind(torn, n, next), n);
    TearReached(torn, n, next);
    if n == 0 || n == |Encoded(torn)| {
      NoTear(torn, n, next);
      ScansWhole(recs, Kept(torn, n) + [next]);
    }
  }

  /** An entry of one octet, without its octet. */
  function Stem(): (b: seq<byte>)
    ensures |b| == 21
  {
    ToBE(18, 4) + ([OP_OUT] + ToBE(0, 8)) + (ToBE(0, 4) + ToBE(1, 4))
  }

  lemma StemAnd(x: byte)
    ensures Fits(Rec(OP_OUT, 0, [], [x])) && Encoded(Rec(OP_OUT, 0, [], [x])) == Stem() + [x]
  {
    var r := Rec(OP_OUT, 0, [], [x]);
    assert Payload(r) == (ToBE(0, 4) + ToBE(1, 4)) + [x];
    assert |Body(r)| == 18;
    Widths();
    PowMonotone(256, 0, 8);
  }

  /** A tombstone's first octet, and what its others read as. */
  lemma TombOctets(b: seq<byte>)
    requires b == Encoded(Rec(OP_IN, 0, [], []))
    ensures Fits(Rec(OP_IN, 0, [], [])) && |b| == 13 && b[0] == 0 && ReadRecord(b[1..]) == UnexpectedEof
  {
    Widths();
    PowMonotone(256, 0, 8);
    var len := ToBE(9, 4);
    assert ToBE(9, 4) == ToBE(0, 3) + [9] && ToBE(0, 3) == ToBE(0, 2) + [0] && ToBE(0, 2) == ToBE(0, 1) + [0] && ToBE(0, 1) == ToBE(0, 0) + [0];
    assert len == [0, 0, 0, 9];
    assert b[1..][..4] == [0, 0, 9, 2];
    LengthThere();
  }

  lemma LengthThere()
    ensures FromBE([0, 0, 9, 2]) == 2306
  {
    assert [0, 0, 9, 2][..3] == [0, 0, 9] && [0, 0, 9][..2] == [0, 0] && [0, 0][..1] == [0] && [0][..0] == [];
    assert FromBE([0]) == 0 && FromBE([0, 0]) == 0 && FromBE([0, 0, 9]) == 9;
  }

  /** What a tear can do to the record it cut: one octet short, its value is completed by
      the next record's first octet, and that record is lost. */
  lemma TornComesBackChanged()
    ensures var torn, next := Rec(OP_OUT, 0, [], [5]), Rec(OP_IN, 0, [], []);
            && Fits(torn) && Fits(next) && |Encoded(torn)| == 22
            && Scan(Behind(torn, 21, next)) == Scanned([Rec(OP_OUT, 0, [], [0])], Torn)
  {
    var torn, next, got := Rec(OP_OUT, 0, [], [5]), Rec(OP_IN, 0, [], []), Rec(OP_OUT, 0, [], [0]);
    var b := Encoded(next);
    StemAnd(5);
    StemAnd(0);
    TombOctets(b);
    OctetMoves(Stem(), 5, b);
    TornBehind(got, b[1..]);
  }

  lemma OctetMoves<T>(stem: seq<T>, x: T, b: seq<T>)
    requires b != []
    ensures (stem + [x])[..|stem|] + b == (stem + [b[0]]) + b[1..]
  {
  }

  lemma TornBehind(r: Rec, rest: seq<byte>)
    requires Fits(r) && ReadRecord(rest) == UnexpectedEof
    ensures Scan(Encoded(r) + rest) == Scanned([r], Torn)
  {
    ScanStep(r, rest);
    assert [r] + [] == [r];
  }

  /** As long as the length found at the tear reaches past the log's end, nothing behind the
      tear is read at all; once the torn length is whole, that is until appends have filled
      the hole. */
  lemma SwallowedByTear(recs: seq<Rec>, torn: Rec, n: nat, next: Rec)
    requires AllFit(recs) && Fits(torn) && n <= |Encoded(torn)|
    ensures var tail := Behind(torn, n, next);
            Scan(EncodedAll(recs) + tail) == Scanned(recs, Torn) <==> 4 + FromBE(tail[..4]) > |tail|
    ensures n >= 4 ==> FromBE(Behind(torn, n, next)[..4]) == |Encoded(torn)| - 4
  {
    var tail := Behind(torn, n, next);
    ScanWritten(recs, tail);
    TornScan(tail);
    assert recs + [] == recs;
    if n >= 4 {
      assert tail[..4] == ToBE(|Body(torn)|, 4);
      FromBEToBE(|Body(torn)|, 4);
    }
  }

  lemma TornScan(tail: seq<byte>)
    requires |tail| >= 13
    ensures if 4 + FromBE(tail[..4]) > |tail| then Scan(tail) == Scanned([], Torn)
            else Scan(tail).stop == Bad || Scan(tail).recs != []
  {
  }

  // ----- the buffer encodeRecord fills -----

  /** binary.BigEndian.PutUintN */
  method PutBE(buf: array<byte>, off: nat, w: nat, v: nat)
    requires off + w <= buf.Length
    modifies buf
    ensures buf[..] == old(buf[..off]) + ToBE(v, w) + old(buf[off + w..])
  {
    var i, x := w, v;
    ghost var want := ToBE(v, w);
    while i > 0
      invariant 0 <= i <= w && ToBE(x, i) == want[..i]
      invariant forall j :: 0 <= j < off + i || off + w <= j < buf.Length ==> buf[j] == old(buf[j])
      invariant forall j :: i <= j < w ==> buf[off + j] == want[j]
    {
      i := i - 1;
      LastOctet(x, i, want);
      buf[off + i] := x % 256;
      x := x / 256;
    }
    assert buf[..] == old(buf[..off]) + want + old(buf[off + w..]);
  }

  lemma LastOctet(x: nat, i: nat, want: seq<byte>)
    requires i < |want| && ToBE(x, i + 1) == want[..i + 1]
    ensures want[i] == x % 256 && ToBE(x / 256, i) == want[..i]
  {
    assert want[..i + 1][i] == want[i];
    assert want[..i + 1][..i] == want[..i];
  }

  /** copy(buf[off:], src) */
  method CopyInto(buf: array<byte>, off: nat, src: seq<byte>)
    requires off + |src| <= buf.Length
    modifies buf
    ensures buf[..] == old(buf[..off]) + src + old(buf[off + |src|..])
  {
    for i := 0 to |src|
      invariant buf[..off] == old(buf[..off])
      invariant buf[off..off + i] == src[..i]
      invariant buf[off + i..] == old(buf[off + i..])
    {
      buf[off + i] := src[i];
      assert buf[off..off + i + 1] == src[..i] + [src[i]];
    }
    assert buf[..] == buf[..off] + buf[off..off + |src|] + buf[off + |src|..];
  }

  /** What a buffer holds once its first off octets are written. */
  lemma Wrote(before: seq<byte>, after: seq<byte>, done: seq<byte>, part: seq<byte>)
    requires |done| + |part| <= |before| && before[..|done|] == done
    requires after == before[..|done|] + part + before[|done| + |part|..]
    ensures |after| == |before| && after[..|done| + |part|] == done + part
  {
  }

  method EncodeRecord(op: byte, seqNo: nat, key: seq<byte>, val: seq<byte>) returns (rec: seq<byte>)
    ensures rec == Encoded(Rec(op, seqNo, key, val))
  {
    ghost var r := Rec(op, seqNo, key, val);
    var bodyLen := 1 + 8;
    if op == OP_OUT { bodyLen := bodyLen + 4 + |key| + 4 + |val|; }
    assert bodyLen == |Body(r)|;
    var buf := new byte[4 + bodyLen](_ => 0);
    ghost var was := buf[..];
    PutBE(buf, 0, 4, bodyLen);
    Wrote(was, buf[..], [], ToBE(bodyLen, 4));
    buf[4] := op;
    assert buf[..5] == ToBE(bodyLen, 4) + [op];
    was := buf[..];
    PutBE(buf, 5, 8, seqNo);
    ghost var done := ToBE(bodyLen, 4) + [op];
    Wrote(was, buf[..], done, ToBE(seqNo, 8));
    done := done + ToBE(seqNo, 8);
    if op == OP_OUT {
      PutPayload(buf, key, val, done);
      assert done + Payload(r) == Encoded(r);
    }
    assert buf[..] == Encoded(r);
    rec := buf[..];
  }

  method PutPayload(buf: array<byte>, key: seq<byte>, val: seq<byte>, ghost head: seq<byte>)
    requires |head| == 13 && buf.Length == 21 + |key| + |val| && buf[..13] == head
    modifies buf
    ensures buf[..] == head + Payload(Rec(OP_OUT, 0, key, val))
  {
    var off := 13;
    ghost var was, done := buf[..], head;
    PutBE(buf, off, 4, |key|);
    Wrote(was, buf[..], done, ToBE(|key|, 4));
    off := off + 4;
    was, done := buf[..], done + ToBE(|key|, 4);
    CopyInto(buf, off, key);
    Wrote(was, buf[..], done, key);
    off := off + |key|;
    was, done := buf[..], done + key;
    PutBE(buf, off, 4, |val|);
    Wrote(was, buf[..], done, ToBE(|val|, 4));
    off := off + 4;
    was, done := buf[..], done + ToBE(|val|, 4);
    CopyInto(buf, off, val);
    Wrote(was, buf[..], done, val);
    assert buf[..] == done + val;
    Regrouped(head, ToBE(|key|, 4), key, ToBE(|val|, 4), val);
  }

  lemma Regrouped(h: seq<byte>, a: seq<byte>, k: seq<byte>, b: seq<byte>, v: seq<byte>)
    ensures h + a + k + b + v == h + (a + k + b + v)
  {
  }
}
