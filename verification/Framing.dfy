/** Laying self-delimiting fields one after the other: the structural half of the wire
    round trip, independent of what the fields contain. */
module Framing {
  import opened Wrappers
  import opened Numerals
  import opened Engine
  import opened Coherence
  import BM = Bitmaps

  /** Rendered fields, by data element. */
  type Pieces = map<nat, seq<byte>>

  /** The pieces below element n, in ascending order. */
  ghost function Cat(cs: Pieces, n: nat): (w: seq<byte>)
  {
    if n == 0 then [] else Cat(cs, n - 1) + if n - 1 in cs then cs[n - 1] else []
  }

  /** Every piece is a field of the schema. */
  ghost predicate Delimited(s: Schema, cs: Pieces)
  {
    forall de :: de in cs ==> 1 <= de < |s.defs| && FieldOf(s, de).Some? && IsField(FieldOf(s, de).value, cs[de])
  }

  /** Slot sl is where wire w shows the piece c. */
  ghost predicate Shows(def: FieldDef, w: seq<byte>, sl: Slot, c: seq<byte>)
  {
    && sl.wireOff + |c| <= |w| && w[sl.wireOff..sl.wireOff + |c|] == c
    && FieldBodySpan(def, w, sl.wireOff).Ok?
    && sl == SlotAt(sl.wireOff, FieldBodySpan(def, w, sl.wireOff).value)
    && sl.bodyEnd == sl.wireOff + |c|
  }

  /** Element de after parsing the pieces below n: its piece, or what stood there before. */
  ghost predicate LandedAt(s: Schema, cs: Pieces, w: seq<byte>, n: nat, de: nat, sl: Slot, sl': Slot)
    requires Delimited(s, cs)
  {
    if de in cs && de < n then Shows(FieldOf(s, de).value, w, sl', cs[de]) else sl' == sl
  }

  ghost predicate Landed(s: Schema, cs: Pieces, w: seq<byte>, slots: seq<Slot>, slots': seq<Slot>, n: nat)
    requires Delimited(s, cs)
  {
    |slots| == |slots'| == |s.defs| && forall de :: 0 <= de < |slots'| ==> LandedAt(s, cs, w, n, de, slots[de], slots'[de])
  }

  lemma LandedStep(s: Schema, cs: Pieces, w: seq<byte>, slots: seq<Slot>, mid: seq<Slot>, n: nat, sl: Slot)
    requires Delimited(s, cs) && Landed(s, cs, w, slots, mid, n)
    requires n in cs && Shows(FieldOf(s, n).value, w, sl, cs[n])
    ensures Landed(s, cs, w, slots, mid[n := sl], n + 1)
  {
    var slots' := mid[n := sl];
    forall de | 0 <= de < |slots'| ensures LandedAt(s, cs, w, n + 1, de, slots[de], slots'[de]) {
      assert LandedAt(s, cs, w, n, de, slots[de], mid[de]);
    }
  }

  lemma LandedSkip(s: Schema, cs: Pieces, w: seq<byte>, slots: seq<Slot>, mid: seq<Slot>, n: nat)
    requires Delimited(s, cs) && Landed(s, cs, w, slots, mid, n) && n !in cs
    ensures Landed(s, cs, w, slots, mid, n + 1)
  {
    forall de | 0 <= de < |mid| ensures LandedAt(s, cs, w, n + 1, de, slots[de], mid[de]) {
      assert LandedAt(s, cs, w, n, de, slots[de], mid[de]);
    }
  }

  lemma PlaceField(def: FieldDef, c: seq<byte>, w: seq<byte>, off: nat) returns (sp: Span)
    requires IsField(def, c) && off + |c| <= |w| && w[off..off + |c|] == c
    ensures FieldBodySpan(def, w, off) == Ok(sp) && sp.bodyEnd == off + |c|
    ensures Shows(def, w, SlotAt(off, sp), c)
  {
    var p := FieldBodySpan(def, c, 0).value;
    assert c[0..0 + |c|] == c;
    SpanMoves(def, c, 0, w, off);
    sp := Span(p.bodyOff + off, p.bodyEnd + off, p.units);
  }

  ghost predicate ParsesTo(s: Schema, w: seq<byte>, off: nat, des: seq<nat>, slots: seq<Slot>, slots': seq<Slot>, end: nat)
  {
    && |slots| == |s.defs|
    && var r := ParseFields(s, w, off, des, slots);
    r.Ok? && r.value.slots == slots' && r.value.off == end
  }

  /** One more element parsed behind the others. */
  lemma NextParsed(s: Schema, w: seq<byte>, off: nat, des: seq<nat>, slots: seq<Slot>, de: nat, mid: seq<Slot>, o: nat, c: seq<byte>)
    returns (sl: Slot)
    requires |slots| == |s.defs| == |mid| && ParsesTo(s, w, off, des, slots, mid, o)
    requires 0 < de < |s.defs| && FieldOf(s, de).Some? && IsField(FieldOf(s, de).value, c)
    requires o + |c| <= |w| && w[o..o + |c|] == c
    ensures Shows(FieldOf(s, de).value, w, sl, c)
    ensures ParsesTo(s, w, off, des + [de], slots, mid[de := sl], o + |c|)
  {
    var sp := PlaceField(FieldOf(s, de).value, c, w, o);
    sl := SlotAt(o, sp);
    assert (des + [de])[..|des|] == des;
  }

  /** Fields standing one after the other are parsed one after the other. */
  lemma {:induction false} FieldsParse(s: Schema, cs: Pieces, w: seq<byte>, off: nat, slots: seq<Slot>, n: nat)
    returns (slots': seq<Slot>)
    requires Delimited(s, cs) && |slots| == |s.defs|
    requires off + |Cat(cs, n)| <= |w| && w[off..off + |Cat(cs, n)|] == Cat(cs, n)
    ensures Landed(s, cs, w, slots, slots', n)
    ensures ParsesTo(s, w, off, BM.Below(cs.Keys, n), slots, slots', off + |Cat(cs, n)|)
    decreases n
  {
    if n == 0 {
      slots' := slots;
    } else if n - 1 in cs {
      PartsOf(w, off, Cat(cs, n - 1), cs[n - 1]);
      var mid := FieldsParse(s, cs, w, off, slots, n - 1);
      slots' := OneMore(s, cs, w, off, slots, n - 1, mid);
    } else {
      NoPiece(cs, n - 1);
      slots' := FieldsParse(s, cs, w, off, slots, n - 1);
      LandedSkip(s, cs, w, slots, slots', n - 1);
    }
  }

  lemma NoPiece(cs: Pieces, n: nat)
    requires n !in cs
    ensures Cat(cs, n + 1) == Cat(cs, n) && BM.Below(cs.Keys, n + 1) == BM.Below(cs.Keys, n)
  {
  }

  lemma OneMore(s: Schema, cs: Pieces, w: seq<byte>, off: nat, slots: seq<Slot>, n: nat, mid: seq<Slot>)
    returns (slots': seq<Slot>)
    requires Delimited(s, cs) && n in cs && Landed(s, cs, w, slots, mid, n)
    requires ParsesTo(s, w, off, BM.Below(cs.Keys, n), slots, mid, off + |Cat(cs, n)|)
    requires var o := off + |Cat(cs, n)|; o + |cs[n]| <= |w| && w[o..o + |cs[n]|] == cs[n]
    ensures Landed(s, cs, w, slots, slots', n + 1)
    ensures ParsesTo(s, w, off, BM.Below(cs.Keys, n + 1), slots, slots', off + |Cat(cs, n + 1)|)
  {
    var o := off + |Cat(cs, n)|;
    var sl := NextParsed(s, w, off, BM.Below(cs.Keys, n), slots, n, mid, o, cs[n]);
    LandedStep(s, cs, w, slots, mid, n, sl);
    slots' := mid[n := sl];
  }

  /** The whole wire: an optional MTI field, the bitmap, the pieces, and anything after. */
  ghost function Wire(s: Schema, head: seq<byte>, b: BM.Bitmap, cs: Pieces): (w: seq<byte>)
  {
    head + BM.WriteSpec(s.repr, b, s.levels) + Cat(cs, |s.defs|)
  }

  lemma PartsAt(a: seq<byte>, b: seq<byte>, c: seq<byte>)
    ensures var w := a + b + c;
            && w[0..|a|] == a && w[|a|..|a| + |b|] == b && w[|a| + |b|..|a| + |b| + |c|] == c
  {
  }

  lemma BelowKeys(s: Schema, cs: Pieces)
    requires UsableSchema(s) && Delimited(s, cs)
    ensures BM.Below(cs.Keys, BM.MAX_DE + 1) == BM.Below(cs.Keys, |s.defs|)
  {
    if |s.defs| <= BM.MAX_DE + 1 {
      BM.BelowGap(cs.Keys, |s.defs|, BM.MAX_DE + 1);
    } else {
      forall x | BM.MAX_DE + 1 <= x < |s.defs| ensures x !in cs.Keys {
        assert x in cs.Keys ==> FieldOf(s, x).Some?;
      }
      BM.BelowGap(cs.Keys, BM.MAX_DE + 1, |s.defs|);
    }
  }

  ghost predicate IsHead(s: Schema, head: seq<byte>)
  {
    if s.mti.Some? then IsField(s.mti.value, head) else head == []
  }

  /** The slots after the MTI: element 0 shows the head, the rest are empty. */
  ghost predicate OnlyHead(s: Schema, head: seq<byte>, w: seq<byte>, slots: seq<Slot>)
    requires |slots| == |s.defs| >= 1
  {
    && (if s.mti.Some? then Shows(s.mti.value, w, slots[0], head) else slots[0] == NO_SLOT)
    && forall de :: 1 <= de < |slots| ==> slots[de] == NO_SLOT
  }

  lemma HeadParses(s: Schema, head: seq<byte>, w: seq<byte>) returns (slots: seq<Slot>)
    requires |s.defs| >= 1 && IsHead(s, head) && |head| <= |w| && w[0..|head|] == head
    ensures |slots| == |s.defs| && ParseMti(s, w) == Ok(Spans(slots, |head|)) && OnlyHead(s, head, w, slots)
  {
    slots := EmptySlots(s);
    if s.mti.Some? {
      var sp := PlaceField(s.mti.value, head, w, 0);
      slots := slots[0 := SlotAt(0, sp)];
    }
  }

  lemma BitmapParses(s: Schema, cs: Pieces, b: BM.Bitmap, w: seq<byte>, off: nat) returns (bm: BM.Bitmap)
    requires UsableSchema(s) && Delimited(s, cs) && BM.Bits(b) == cs.Keys
    requires var bits := BM.WriteSpec(s.repr, b, s.levels); off + |bits| <= |w| && w[off..off + |bits|] == bits
    ensures BM.ReadSpec(s.repr, w, off, s.levels) == Ok(BM.Read(bm, off + |BM.WriteSpec(s.repr, b, s.levels)|))
    ensures BM.Present(bm) == cs.Keys
  {
    BitsAddressable(s, cs, b);
    bm := BM.WrittenIsRead(s.repr, b, s.levels, w, off, BM.WriteSpec(s.repr, b, s.levels));
  }

  lemma ParseAssembles(s: Schema, w: seq<byte>, first: seq<Slot>, off: nat, bm: BM.Bitmap, next: nat, slots: seq<Slot>, end: nat)
    requires ParseMti(s, w) == Ok(Spans(first, off)) && BM.ReadSpec(s.repr, w, off, s.levels) == Ok(BM.Read(bm, next))
    requires ParsesTo(s, w, next, BM.Below(BM.Present(bm), BM.MAX_DE + 1), first, slots, end)
    ensures Parse(s, w) == Ok(Parsed(slots, bm, end))
  {
  }

  /** The slots of a well-framed wire: the head, the pieces, and nothing else. */
  ghost predicate ShowsExactly(s: Schema, head: seq<byte>, cs: Pieces, w: seq<byte>, slots: seq<Slot>)
    requires Delimited(s, cs)
  {
    && |slots| == |s.defs| >= 1
    && (if s.mti.Some? then Shows(s.mti.value, w, slots[0], head) else slots[0] == NO_SLOT)
    && forall de :: 1 <= de < |slots| ==>
         if de in cs then Shows(FieldOf(s, de).value, w, slots[de], cs[de]) else slots[de] == NO_SLOT
  }

  lemma LandedExactly(s: Schema, head: seq<byte>, cs: Pieces, w: seq<byte>, first: seq<Slot>, slots: seq<Slot>)
    requires Delimited(s, cs) && |first| == |s.defs| >= 1 && OnlyHead(s, head, w, first)
    requires Landed(s, cs, w, first, slots, |s.defs|)
    ensures ShowsExactly(s, head, cs, w, slots)
  {
    forall de | 0 <= de < |slots| ensures LandedAt(s, cs, w, |s.defs|, de, first[de], slots[de]) {}
  }

  /** The fields of w, from off on, are the pieces and run to the end. */
  lemma TailParses(s: Schema, head: seq<byte>, cs: Pieces, w: seq<byte>, off: nat, first: seq<Slot>, bm: BM.Bitmap)
    returns (slots: seq<Slot>)
    requires Delimited(s, cs) && |first| == |s.defs| >= 1 && OnlyHead(s, head, w, first)
    requires off + |Cat(cs, |s.defs|)| == |w| && w[off..off + |Cat(cs, |s.defs|)|] == Cat(cs, |s.defs|)
    requires BM.Below(BM.Present(bm), BM.MAX_DE + 1) == BM.Below(cs.Keys, |s.defs|)
    ensures ParsesTo(s, w, off, BM.Below(BM.Present(bm), BM.MAX_DE + 1), first, slots, |w|)
    ensures ShowsExactly(s, head, cs, w, slots)
  {
    slots := FieldsParse(s, cs, w, off, first, |s.defs|);
    LandedExactly(s, head, cs, w, first, slots);
  }

  /** w is head, bitmap and pieces, and nothing else. */
  ghost predicate IsWire(s: Schema, head: seq<byte>, b: BM.Bitmap, cs: Pieces, w: seq<byte>)
  {
    var bits, tail := BM.WriteSpec(s.repr, b, s.levels), Cat(cs, |s.defs|);
    && |w| == |head| + |bits| + |tail|
    && w[0..|head|] == head && w[|head|..|head| + |bits|] == bits
    && w[|head| + |bits|..|head| + |bits| + |tail|] == tail
  }

  lemma WireIsWire(s: Schema, head: seq<byte>, b: BM.Bitmap, cs: Pieces)
    ensures IsWire(s, head, b, cs, Wire(s, head, b, cs))
  {
    PartsAt(head, BM.WriteSpec(s.repr, b, s.levels), Cat(cs, |s.defs|));
  }

  /** A well-framed wire is accepted, consumed to its end, and shows exactly its pieces. */
  lemma WireParses(s: Schema, head: seq<byte>, b: BM.Bitmap, cs: Pieces, w: seq<byte>) returns (slots: seq<Slot>, bm: BM.Bitmap)
    requires UsableSchema(s) && Delimited(s, cs) && BM.Bits(b) == cs.Keys && IsHead(s, head) && IsWire(s, head, b, cs, w)
    ensures Parse(s, w) == Ok(Parsed(slots, bm, |w|))
    ensures ShowsExactly(s, head, cs, w, slots)
  {
    var first := HeadParses(s, head, w);
    bm := BitmapParses(s, cs, b, w, |head|);
    BelowKeys(s, cs);
    var off := |head| + |BM.WriteSpec(s.repr, b, s.levels)|;
    slots := TailParses(s, head, cs, w, off, first, bm);
    ParseAssembles(s, w, first, |head|, bm, off, slots, |w|);
  }

  lemma BitsAddressable(s: Schema, cs: Pieces, b: BM.Bitmap)
    requires UsableSchema(s) && Delimited(s, cs) && BM.Bits(b) == cs.Keys
    ensures BM.AllAddressable(b, s.levels)
  {
    forall de | BM.IsSet(b, de) ensures BM.Addressable(de, s.levels) {
      assert de in BM.Bits(b);
      assert s.defs[de].Some?;
    }
  }
}
