/** BER-TLV composite bodies with raw-valued tags (fieldcodec/tlv/bertlv.go) and the
    tag-addressed child message (iso8583/message.go). Tag and length octets follow sections
    8.1.2 and 8.1.3 of ITU-T X.690. */
module BerTlv {
  import opened Wrappers
  import opened Numerals
  import opened Hex

  datatype Error = Truncated | Indefinite | BadHex

  // ----- the tag-addressed child -----

  type Tag = seq<byte>

  /** Values by tag, and the tags in the order first seen. */
  datatype Child = Child(order: seq<Tag>, vals: map<Tag, seq<byte>>)

  const NEW: Child := Child([], map[])

  function Put(c: Child, tag: Tag, v: seq<byte>): Child
  {
    Child(if tag in c.vals then c.order else c.order + [tag], c.vals[tag := v])
  }

  class TagMessage {
    var tags: map<Tag, seq<byte>>
    var tagOrder: seq<Tag>

    function View(): Child
      reads this
    {
      Child(tagOrder, tags)
    }

    constructor ()
      ensures View() == NEW
    {
      tags, tagOrder := map[], [];
    }

    /** The tag is already in upper case. */
    method PutTag(tag: Tag, v: seq<byte>)
      modifies this
      ensures View() == Put(old(View()), tag, v)
    {
      if tag !in tags { tagOrder := tagOrder + [tag]; }
      tags := tags[tag := v];
    }
  }

  // ----- triplets -----

  /** Octets of a tag after the first, up to and including the first without its high bit. */
  function TagTail(b: seq<byte>): Option<nat>
  {
    if b == [] then None
    else if b[0] < 128 then Some(1)
    else
      var t := TagTail(b[1..]);
      if t.None? then None else Some(t.value + 1)
  }

  lemma {:induction false} TagTailBounds(b: seq<byte>)
    ensures TagTail(b).Some? ==> 1 <= TagTail(b).value <= |b|
  {
    if b != [] { TagTailBounds(b[1..]); }
  }

  function TagSize(b: seq<byte>): (n: Option<nat>)
    ensures n.Some? ==> 1 <= n.value <= |b|
  {
    if b == [] then None
    else if b[0] % 32 != 31 then Some(1)
    else
      var t := TagTail(b[1..]);
      TagTailBounds(b[1..]);
      if t.None? then None else Some(1 + t.value)
  }

  datatype Length = Length(size: nat, n: nat)

  function LengthOf(b: seq<byte>): (l: Result<Length, Error>)
    ensures l.Ok? ==> l.value.size <= |b|
  {
    if b == [] then Err(Truncated)
    else if b[0] < 128 then Ok(Length(1, b[0]))
    else
      var nb := b[0] % 128;
      if nb == 0 || nb > 4 then Err(Indefinite)
      else if 1 + nb > |b| then Err(Truncated)
      else Ok(Length(1 + nb, FromBE(b[1..1 + nb])))
  }

  datatype Triplet = Triplet(tag: seq<byte>, val: seq<byte>)

  datatype Parsed = Parsed(t: Triplet, size: nat)

  /** readTLV at the start of b, the tag as octets. */
  function ReadTlv(b: seq<byte>): (p: Result<Parsed, Error>)
    ensures p.Ok? ==> 1 <= p.value.size <= |b|
  {
    var ts := TagSize(b);
    if ts.None? then Err(Truncated)
    else
      var l :- LengthOf(b[ts.value..]);
      var at := ts.value + l.size;
      if at + l.n > |b| then Err(Truncated) else Ok(Parsed(Triplet(b[..ts.value], b[at..at + l.n]), at + l.n))
  }

  function Triplets(b: seq<byte>): Result<seq<Triplet>, Error>
    decreases |b|
  {
    if b == [] then Ok([])
    else
      var p :- ReadTlv(b);
      var rest :- Triplets(b[p.size..]);
      Ok([p.t] + rest)
  }

  function PutAll(c: Child, ts: seq<Triplet>): Child
    decreases |ts|
  {
    if ts == [] then c else PutAll(Put(c, HexOf(ts[0].tag), ts[0].val), ts[1..])
  }

  function Decoded(body: seq<byte>): Result<Child, Error>
  {
    var ts :- Triplets(body);
    Ok(PutAll(NEW, ts))
  }

  // ----- encoding -----

  function BerLen(n: nat): seq<byte>
  {
    if n < 0x80 then [n]
    else if n <= 0xFF then [0x81] + ToBE(n, 1)
    else if n <= 0xFFFF then [0x82] + ToBE(n, 2)
    else if n <= 0xFF_FFFF then [0x83] + ToBE(n, 3)
    else [0x84] + ToBE(n, 4)
  }

  function EncodedTlv(tag: seq<byte>, val: seq<byte>): seq<byte> { tag + BerLen(|val|) + val }

  function EncodedFrom(c: Child, tags: seq<Tag>): Result<seq<byte>, Error>
    decreases |tags|
  {
    if tags == [] then Ok([])
    else if tags[0] !in c.vals then EncodedFrom(c, tags[1..])
    else
      var octets := FromHex(tags[0]);
      if octets.None? then Err(BadHex)
      else
        var rest :- EncodedFrom(c, tags[1..]);
        Ok(EncodedTlv(octets.value, c.vals[tags[0]]) + rest)
  }

  function Encoded(c: Child): Result<seq<byte>, Error> { EncodedFrom(c, c.order) }

  // ----- the loops of the source -----

  method ScanTag(b: seq<byte>) returns (n: Option<nat>)
    ensures n == TagSize(b)
  {
    if b == [] { return None; }
    var i := 1;
    if b[0] % 32 == 31 {
      while true
        invariant 1 <= i <= |b|
        invariant TagTail(b[1..]) == Shifted(TagTail(b[i..]), i - 1)
        decreases |b| - i
      {
        if i >= |b| { return None; }
        var c := b[i];
        assert b[i..][1..] == b[i + 1..];
        i := i + 1;
        if c < 128 { break; }
      }
    }
    return Some(i);
  }

  function Shifted(t: Option<nat>, n: nat): Option<nat> { if t.None? then None else Some(t.value + n) }

  method ReadLength(b: seq<byte>) returns (l: Result<Length, Error>)
    ensures l == LengthOf(b)
  {
    if b == [] { return Err(Truncated); }
    if b[0] < 128 { return Ok(Length(1, b[0])); }
    var nb := b[0] % 128;
    if nb == 0 || nb > 4 { return Err(Indefinite); }
    if 1 + nb > |b| { return Err(Truncated); }
    var length: nat := 0;
    for k := 0 to nb
      invariant length == FromBE(b[1..1 + k])
    {
      assert b[1..1 + k + 1][..k] == b[1..1 + k];
      length := length * 256 + b[1 + k];
    }
    return Ok(Length(1 + nb, length));
  }

  method ReadOne(b: seq<byte>) returns (p: Result<Parsed, Error>)
    ensures p == ReadTlv(b)
  {
    var ts := ScanTag(b);
    if ts.None? { return Err(Truncated); }
    var l := ReadLength(b[ts.value..]);
    if l.Err? { return Err(l.error); }
    var at := ts.value + l.value.size;
    if at + l.value.n > |b| { return Err(Truncated); }
    return Ok(Parsed(Triplet(b[..ts.value], b[at..at + l.value.n]), at + l.value.n));
  }

  /** Putting what is still to come. */
  function Continued(c: Child, ts: Result<seq<Triplet>, Error>): Result<Child, Error>
  {
    if ts.Ok? then Ok(PutAll(c, ts.value)) else Err(ts.error)
  }

  lemma ContinuedStep(c: Child, b: seq<byte>)
    requires b != [] && ReadTlv(b).Ok?
    ensures var p := ReadTlv(b).value;
            Continued(c, Triplets(b)) == Continued(Put(c, HexOf(p.t.tag), p.t.val), Triplets(b[p.size..]))
  {
    var p := ReadTlv(b).value;
    var rest := Triplets(b[p.size..]);
    if rest.Ok? {
      assert ([p.t] + rest.value)[1..] == rest.value;
    }
  }

  /** Decoding the octets still unread into the child built so far gives what is wanted. */
  ghost predicate Pending(want: Result<Child, Error>, rest: seq<byte>, c: Child)
  {
    want == Continued(c, Triplets(rest))
  }

  lemma PendingStep(want: Result<Child, Error>, b: seq<byte>, c: Child, p: Result<Parsed, Error>)
    requires Pending(want, b, c) && b != [] && p == ReadTlv(b)
    ensures if p.Err? then want == Err(p.error)
            else p.value.size <= |b| && Pending(want, b[p.value.size..], Put(c, HexOf(p.value.t.tag), p.value.t.val))
  {
    if p.Ok? { ContinuedStep(c, b); }
  }

  method DecodeNext(ghost want: Result<Child, Error>, b: seq<byte>, c: Child) returns (p: Result<Parsed, Error>)
    requires Pending(want, b, c) && b != []
    ensures p.Err? ==> want == Err(p.error)
    ensures p.Ok? ==> 1 <= p.value.size <= |b| && Pending(want, b[p.value.size..], Put(c, HexOf(p.value.t.tag), p.value.t.val))
  {
    p := ReadOne(b);
    PendingStep(want, b, c, p);
  }

  method DecodeBody(body: seq<byte>) returns (r: Result<Child, Error>)
    ensures r == Decoded(body)
  {
    r := DecodeAll(Decoded(body), body);
  }

  method DecodeAll(ghost want: Result<Child, Error>, body: seq<byte>) returns (r: Result<Child, Error>)
    requires Pending(want, body, NEW)
    ensures r == want
  {
    var child, rest := NEW, body;
    while rest != []
      invariant Pending(want, rest, child)
      decreases |rest|
    {
      var p := DecodeNext(want, rest, child);
      if p.Err? { return Err(p.error); }
      child, rest := Put(child, HexOf(p.value.t.tag), p.value.t.val), rest[p.value.size..];
    }
    return Ok(child);
  }

  method EncodeBody(c: Child) returns (r: Result<seq<byte>, Error>)
    ensures r == Encoded(c)
  {
    var dst: seq<byte> := [];
    assert c.order[0..] == c.order;
    assert Encoded(c).Ok? ==> [] + Encoded(c).value == Encoded(c).value;
    for i := 0 to |c.order|
      invariant Encoded(c) == Prepend(dst, EncodedFrom(c, c.order[i..]))
    {
      var tag := c.order[i];
      assert c.order[i..][1..] == c.order[i + 1..];
      if tag !in c.vals { continue; }
      var octets := FromHex(tag);
      if octets.None? { return Err(BadHex); }
      var tlv := EncodedTlv(octets.value, c.vals[tag]);
      if EncodedFrom(c, c.order[i + 1..]).Ok? { ConcatAssoc(dst, tlv, EncodedFrom(c, c.order[i + 1..]).value); }
      dst := dst + tlv;
    }
    assert dst + [] == dst;
    return Ok(dst);
  }

  // ----- round trips -----

  /** Tag octets of section 8.1.2 of X.690: one, or a first with all low bits set followed
      by octets whose high bit is set on all but the last. */
  predicate WellFormedTag(tag: seq<byte>) { TagSize(tag) == Some(|tag|) }

  ghost predicate Fits(t: Triplet) { WellFormedTag(t.tag) && |t.val| < Pow(256, 4) }

  lemma {:induction false} TagTailStands(a: seq<byte>, rest: seq<byte>)
    requires TagTail(a) == Some(|a|)
    ensures TagTail(a + rest) == Some(|a|)
  {
    var b := a + rest;
    assert b[0] == a[0];
    if a[0] >= 128 {
      assert b[1..] == a[1..] + rest;
      TagTailStands(a[1..], rest);
    }
  }

  lemma TagStands(tag: seq<byte>, rest: seq<byte>)
    requires WellFormedTag(tag)
    ensures TagSize(tag + rest) == Some(|tag|)
  {
    var b := tag + rest;
    assert b[0] == tag[0];
    if tag[0] % 32 == 31 {
      assert b[1..] == tag[1..] + rest;
      TagTailStands(tag[1..], rest);
    }
  }

  lemma Powers()
    ensures Pow(256, 1) == 0x100 && Pow(256, 2) == 0x1_0000 && Pow(256, 3) == 0x100_0000 && Pow(256, 4) == 0x1_0000_0000
  {
    assert Pow(256, 0) == 1;
    assert Pow(256, 1) == 256;
    assert Pow(256, 2) == 65536;
    assert Pow(256, 3) == 16777216;
  }

  /** Length octets of section 8.1.3 of X.690 read back. */
  lemma LengthStands(n: nat, rest: seq<byte>)
    requires n < Pow(256, 4)
    ensures LengthOf(BerLen(n) + rest) == Ok(Length(|BerLen(n)|, n))
  {
    Powers();
    if n >= 0x80 {
      var w := if n <= 0xFF then 1 else if n <= 0xFFFF then 2 else if n <= 0xFF_FFFF then 3 else 4;
      LongForm(n, w, rest);
    }
  }

  lemma LongForm(n: nat, w: nat, rest: seq<byte>)
    requires 1 <= w <= 4 && n < Pow(256, w)
    ensures LengthOf(([0x80 + w] + ToBE(n, w)) + rest) == Ok(Length(1 + w, n))
  {
    var b := ([0x80 + w] + ToBE(n, w)) + rest;
    assert b[0] == 0x80 + w && b[1..1 + w] == ToBE(n, w);
    FromBEToBE(n, w);
    LongFormReads(b, w);
  }

  lemma LongFormReads(b: seq<byte>, w: nat)
    requires 1 <= w <= 4 && 1 + w <= |b| && b[0] == 0x80 + w
    ensures LengthOf(b) == Ok(Length(1 + w, FromBE(b[1..1 + w])))
  {
    assert b[0] % 128 == w;
  }

  lemma TlvStands(t: Triplet, rest: seq<byte>)
    requires Fits(t)
    ensures ReadTlv(EncodedTlv(t.tag, t.val) + rest) == Ok(Parsed(t, |EncodedTlv(t.tag, t.val)|))
  {
    var len, b := BerLen(|t.val|), EncodedTlv(t.tag, t.val) + rest;
    assert b == t.tag + (len + (t.val + rest));
    TagStands(t.tag, len + (t.val + rest));
    assert b[|t.tag|..] == len + (t.val + rest);
    LengthStands(|t.val|, t.val + rest);
    assert b[..|t.tag|] == t.tag;
    assert b[|t.tag| + |len|..|t.tag| + |len| + |t.val|] == t.val;
  }

  function EncodedAll(ts: seq<Triplet>): seq<byte>
  {
    if ts == [] then [] else EncodedTlv(ts[0].tag, ts[0].val) + EncodedAll(ts[1..])
  }

  lemma {:induction false} TripletsStand(ts: seq<Triplet>)
    requires forall i :: 0 <= i < |ts| ==> Fits(ts[i])
    ensures Triplets(EncodedAll(ts)) == Ok(ts)
  {
    if ts != [] {
      var tlv, rest := EncodedTlv(ts[0].tag, ts[0].val), EncodedAll(ts[1..]);
      assert Fits(ts[0]);
      TlvStands(ts[0], rest);
      assert (tlv + rest)[|tlv|..] == rest;
      TripletsStand(ts[1..]);
      assert [ts[0]] + ts[1..] == ts;
    }
  }

  // ----- children -----

  /** The child's entries, in order. */
  function Entries(c: Child): seq<Triplet>
    requires forall i :: 0 <= i < |c.order| ==> c.order[i] in c.vals && FromHex(c.order[i]).Some?
  {
    seq(|c.order|, i requires 0 <= i < |c.order| => Triplet(FromHex(c.order[i]).value, c.vals[c.order[i]]))
  }

  /** Tags listed once each, in canonical hex of well-formed octets, with values the length
      octets can carry. */
  ghost predicate Canonical(c: Child)
  {
    && (forall i :: 0 <= i < |c.order| ==> c.order[i] in c.vals && Proper(c.order[i], c.vals[c.order[i]]))
    && (forall i, j :: 0 <= i < j < |c.order| ==> c.order[i] != c.order[j])
    && (forall tag :: tag in c.vals ==> tag in c.order)
  }

  ghost predicate Proper(tag: Tag, val: seq<byte>)
  {
    && FromHex(tag).Some? && HexOf(FromHex(tag).value) == tag
    && Fits(Triplet(FromHex(tag).value, val))
  }

  lemma PutCanonical(c: Child, t: Triplet)
    requires Canonical(c) && Fits(t)
    ensures Canonical(Put(c, HexOf(t.tag), t.val))
  {
    HexRoundTrip(t.tag);
    var tag, c' := HexOf(t.tag), Put(c, HexOf(t.tag), t.val);
    assert Proper(tag, t.val);
    forall x | x in c'.vals ensures x in c'.order {
      if tag !in c.vals { assert c'.order[|c.order|] == tag; }
    }
  }

  lemma {:induction false} PutAllCanonical(c: Child, ts: seq<Triplet>)
    requires Canonical(c) && forall i :: 0 <= i < |ts| ==> Fits(ts[i])
    ensures Canonical(PutAll(c, ts))
    decreases |ts|
  {
    if ts != [] {
      PutCanonical(c, ts[0]);
      PutAllCanonical(Put(c, HexOf(ts[0].tag), ts[0].val), ts[1..]);
    }
  }

  /** Putting entries with new, distinct tags appends them as they are. */
  ghost predicate AllNew(c: Child, ts: seq<Triplet>)
  {
    && (forall i :: 0 <= i < |ts| ==> HexOf(ts[i].tag) !in c.vals)
    && (forall i, j :: 0 <= i < j < |ts| ==> HexOf(ts[i].tag) != HexOf(ts[j].tag))
  }

  function HexTags(ts: seq<Triplet>): seq<Tag> { seq(|ts|, i requires 0 <= i < |ts| => HexOf(ts[i].tag)) }

  /** d is c with the entries ts appended. */
  ghost predicate Appends(c: Child, d: Child, ts: seq<Triplet>)
  {
    && d.order == c.order + HexTags(ts)
    && (forall tag :: tag in c.vals ==> tag in d.vals && d.vals[tag] == c.vals[tag])
    && (forall i :: 0 <= i < |ts| ==> HexOf(ts[i].tag) in d.vals && d.vals[HexOf(ts[i].tag)] == ts[i].val)
    && (forall tag :: tag in d.vals ==> tag in c.vals || tag in HexTags(ts))
  }

  lemma AppendsStep(c: Child, d: Child, ts: seq<Triplet>)
    requires ts != [] && HexOf(ts[0].tag) !in c.vals
    requires Appends(Put(c, HexOf(ts[0].tag), ts[0].val), d, ts[1..])
    ensures Appends(c, d, ts)
  {
    var tag, rest := HexOf(ts[0].tag), HexTags(ts[1..]);
    assert HexTags(ts) == [tag] + rest;
    ConcatAssoc(c.order, [tag], rest);
    forall i | 0 <= i < |ts| ensures HexOf(ts[i].tag) in d.vals && d.vals[HexOf(ts[i].tag)] == ts[i].val {
      if i > 0 { assert ts[i] == ts[1..][i - 1]; }
    }
    InOneMore(tag, rest);
  }

  lemma InOneMore(tag: Tag, rest: seq<Tag>)
    ensures forall t :: t in [tag] + rest <==> t == tag || t in rest
  {
  }

  lemma AllNewStep(c: Child, ts: seq<Triplet>)
    requires AllNew(c, ts) && ts != []
    ensures AllNew(Put(c, HexOf(ts[0].tag), ts[0].val), ts[1..])
  {
    forall i | 0 <= i < |ts| - 1 ensures ts[1..][i] == ts[i + 1] {}
  }

  lemma {:induction false} PutAllAppends(c: Child, ts: seq<Triplet>)
    requires AllNew(c, ts)
    ensures Appends(c, PutAll(c, ts), ts)
    decreases |ts|
  {
    if ts == [] {
      assert c.order + HexTags(ts) == c.order;
    } else {
      AllNewStep(c, ts);
      PutAllAppends(Put(c, HexOf(ts[0].tag), ts[0].val), ts[1..]);
      AppendsStep(c, PutAll(c, ts), ts);
    }
  }

  lemma {:induction false} EncodedFromIs(c: Child, k: nat)
    requires Canonical(c) && k <= |c.order|
    ensures EncodedFrom(c, c.order[k..]) == Ok(EncodedAll(Entries(c)[k..]))
    decreases |c.order| - k
  {
    if k < |c.order| {
      EncodedFromIs(c, k + 1);
      EntryAt(c, k);
      EncodedStep(c, c.order[k..], Entries(c)[k..]);
    }
  }

  lemma EntryAt(c: Child, k: nat)
    requires Canonical(c) && k < |c.order|
    ensures var tags, ts := c.order[k..], Entries(c)[k..];
            && tags != [] && ts != [] && tags[0] in c.vals && FromHex(tags[0]) == Some(ts[0].tag) && c.vals[tags[0]] == ts[0].val
            && tags[1..] == c.order[k + 1..] && ts[1..] == Entries(c)[k + 1..]
  {
    DropDrop(c.order, k, k + 1);
    DropDrop(Entries(c), k, k + 1);
  }

  lemma EncodedStep(c: Child, tags: seq<Tag>, ts: seq<Triplet>)
    requires tags != [] && ts != [] && tags[0] in c.vals && FromHex(tags[0]) == Some(ts[0].tag) && c.vals[tags[0]] == ts[0].val
    requires EncodedFrom(c, tags[1..]) == Ok(EncodedAll(ts[1..]))
    ensures EncodedFrom(c, tags) == Ok(EncodedAll(ts))
  {
  }

  lemma EntriesAre(c: Child)
    requires Canonical(c)
    ensures var ts := Entries(c);
            && (forall i :: 0 <= i < |ts| ==> Fits(ts[i]) && HexOf(ts[i].tag) == c.order[i] && ts[i].val == c.vals[c.order[i]])
            && HexTags(ts) == c.order && AllNew(NEW, ts)
  {
    var ts := Entries(c);
    forall i | 0 <= i < |ts| ensures Fits(ts[i]) && HexOf(ts[i].tag) == c.order[i] {
      assert Proper(c.order[i], c.vals[c.order[i]]);
    }
    assert HexTags(ts) == c.order;
  }

  lemma DecodedEntries(c: Child)
    requires Canonical(c)
    ensures PutAll(NEW, Entries(c)) == c
  {
    var ts := Entries(c);
    EntriesAre(c);
    PutAllAppends(NEW, ts);
    var d := PutAll(NEW, ts);
    assert d.order == c.order;
    forall i | 0 <= i < |c.order| ensures c.order[i] in d.vals && d.vals[c.order[i]] == c.vals[c.order[i]] {
      assert HexOf(ts[i].tag) == c.order[i];
    }
    SameVals(c, d);
  }

  /** Encoding a canonical child and decoding it gives it back. */
  lemma ChildRoundTrip(c: Child)
    requires Canonical(c)
    ensures Encoded(c).Ok? && Decoded(Encoded(c).value) == Ok(c)
  {
    EncodedFromIs(c, 0);
    assert c.order[0..] == c.order && Entries(c)[0..] == Entries(c);
    EntriesAre(c);
    TripletsStand(Entries(c));
    DecodedEntries(c);
  }

  lemma SameVals(c: Child, d: Child)
    requires Canonical(c) && d.order == c.order
    requires forall i :: 0 <= i < |c.order| ==> c.order[i] in d.vals && d.vals[c.order[i]] == c.vals[c.order[i]]
    requires forall tag :: tag in d.vals ==> tag in c.order
    ensures d == c
  {
    forall tag | tag in c.vals ensures tag in d.vals && d.vals[tag] == c.vals[tag] {
      var i :| 0 <= i < |c.order| && c.order[i] == tag;
    }
    assert d.vals == c.vals;
  }

  // ----- the two theorems -----

  /** A list of distinct well-formed tags comes back as it was, tags and values in order. */
  lemma ListRoundTrip(ts: seq<Triplet>)
    requires forall i :: 0 <= i < |ts| ==> Fits(ts[i])
    requires forall i, j :: 0 <= i < j < |ts| ==> ts[i].tag != ts[j].tag
    ensures Triplets(EncodedAll(ts)) == Ok(ts)
    ensures Decoded(EncodedAll(ts)).Ok?
    ensures var c := Decoded(EncodedAll(ts)).value;
            && c.order == HexTags(ts)
            && forall i :: 0 <= i < |ts| ==> HexOf(ts[i].tag) in c.vals && c.vals[HexOf(ts[i].tag)] == ts[i].val
  {
    TripletsStand(ts);
    forall i, j | 0 <= i < j < |ts| ensures HexOf(ts[i].tag) != HexOf(ts[j].tag) {
      HexRoundTrip(ts[i].tag);
      HexRoundTrip(ts[j].tag);
    }
    PutAllAppends(NEW, ts);
    assert [] + HexTags(ts) == HexTags(ts);
  }

  lemma {:induction false} TagTailPrefix(b: seq<byte>)
    requires TagTail(b).Some?
    ensures 1 <= TagTail(b).value <= |b| && TagTail(b[..TagTail(b).value]) == TagTail(b)
  {
    TagTailBounds(b);
    if b[0] >= 128 {
      TagTailPrefix(b[1..]);
      var n := TagTail(b).value;
      assert b[..n][1..] == b[1..][..n - 1];
    }
  }

  lemma ReadFits(b: seq<byte>)
    requires ReadTlv(b).Ok?
    ensures Fits(ReadTlv(b).value.t)
  {
    var n := TagSize(b).value;
    if b[0] % 32 == 31 {
      TagTailPrefix(b[1..]);
      assert b[..n][1..] == b[1..][..n - 1];
    }
    LengthFits(b[n..]);
  }

  lemma LengthFits(b: seq<byte>)
    requires LengthOf(b).Ok?
    ensures LengthOf(b).value.n < Pow(256, 4)
  {
    Powers();
    if b[0] >= 128 {
      var nb := b[0] % 128;
      ToBEFromBE(b[1..1 + nb]);
      PowMonotone(256, nb, 4);
    }
  }

  lemma {:induction false} TripletsFit(b: seq<byte>)
    requires Triplets(b).Ok?
    ensures forall i :: 0 <= i < |Triplets(b).value| ==> Fits(Triplets(b).value[i])
    decreases |b|
  {
    if b != [] {
      ReadFits(b);
      TripletsFit(b[ReadTlv(b).value.size..]);
    }
  }

  /** Whatever body is accepted, duplicate tags and over-long lengths included: what it
      decodes to encodes again, and decodes from that to itself. */
  lemma DecodeIsStable(body: seq<byte>)
    requires Decoded(body).Ok?
    ensures var c := Decoded(body).value; Encoded(c).Ok? && Decoded(Encoded(c).value) == Ok(c)
  {
    TripletsFit(body);
    PutAllCanonical(NEW, Triplets(body).value);
    ChildRoundTrip(Decoded(body).value);
  }
}
