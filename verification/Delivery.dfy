/** Marshal followed by Unmarshal, for every coherent message and at any nesting depth. */
module Delivery {
  import opened Wrappers
  import opened Numerals
  import opened Engine
  import opened Coherence
  import opened Framing
  import LC = LengthCodecs
  import BM = Bitmaps

  function PresentIn(slots: seq<Slot>): set<nat>
  {
    set de | 1 <= de < |slots| && slots[de].present
  }

  /** The rendering of element de; total, so that it can be mapped over the elements. */
  ghost function PieceOf(s: Schema, m: Msg, de: nat): seq<byte>
    requires de < |m.slots|
  {
    if FieldOf(s, de).Some? && Chunk(FieldOf(s, de).value, m.slots[de], m.src).Ok?
    then Chunk(FieldOf(s, de).value, m.slots[de], m.src).value else []
  }

  ghost function PiecesOf(s: Schema, m: Msg): (cs: Pieces)
    ensures cs.Keys == PresentIn(m.slots)
  {
    map de | de in PresentIn(m.slots) :: PieceOf(s, m, de)
  }

  /** Element de renders to a field. */
  ghost predicate Framed(s: Schema, m: Msg, de: nat)
  {
    && de < |m.slots| && FieldOf(s, de).Some?
    && var def := FieldOf(s, de).value;
    && Chunk(def, m.slots[de], m.src).Ok? && IsField(def, Chunk(def, m.slots[de], m.src).value)
  }

  /** What a reader of that field sees. */
  ghost function Sent(s: Schema, m: Msg, de: nat): Tree
    requires Framed(s, m, de)
  {
    ViewField(FieldOf(s, de).value, Chunk(FieldOf(s, de).value, m.slots[de], m.src).value)
  }

  /** A message to be rendered whose every present element renders to a field. */
  ghost predicate AllFramed(s: Schema, m: Msg)
  {
    && |m.slots| == |s.defs| && HasMti(s, m) && (m.src.None? || m.owned)
    && forall de :: 0 <= de < |m.slots| && m.slots[de].present ==> Framed(s, m, de)
  }

  lemma {:induction false} DerivedBit(slots: seq<Slot>, n: nat, de: int)
    requires n <= |slots|
    ensures BM.IsSet(Derived(slots, n), de) <==> 1 <= de < n && de <= BM.MAX_DE && slots[de].present
  {
    if n > 1 {
      DerivedBit(slots, n - 1, de);
    }
  }

  lemma DerivedBits(slots: seq<Slot>)
    requires forall de :: 1 <= de < |slots| && slots[de].present ==> de <= BM.MAX_DE
    ensures BM.Bits(Derived(slots, |slots|)) == PresentIn(slots)
  {
    forall de ensures BM.IsSet(Derived(slots, |slots|), de) <==> 1 <= de < |slots| && slots[de].present {
      DerivedBit(slots, |slots|, de);
    }
  }

  lemma {:induction false} ChunksCat(s: Schema, m: Msg, n: nat)
    requires n <= |m.slots| && forall de :: 1 <= de < n && m.slots[de].present ==> Framed(s, m, de)
    ensures Chunks(s, m.slots, m.src, n) == Ok(Cat(PiecesOf(s, m), n))
  {
    var cs := PiecesOf(s, m);
    if n == 1 {
      assert Cat(cs, 0) == [];
      assert Cat(cs, 1) == [];
    } else if n > 1 {
      ChunksCat(s, m, n - 1);
      if m.slots[n - 1].present { assert Framed(s, m, n - 1); }
      ChunkCat(s, m, n);
    }
  }

  lemma ChunkCat(s: Schema, m: Msg, n: nat)
    requires 1 < n <= |m.slots| && (m.slots[n - 1].present ==> Framed(s, m, n - 1))
    requires Chunks(s, m.slots, m.src, n - 1) == Ok(Cat(PiecesOf(s, m), n - 1))
    ensures Chunks(s, m.slots, m.src, n) == Ok(Cat(PiecesOf(s, m), n))
  {
    var cs := PiecesOf(s, m);
    if m.slots[n - 1].present {
      assert cs[n - 1] == Chunk(FieldOf(s, n - 1).value, m.slots[n - 1], m.src).value;
    } else {
      assert Cat(cs, n) == Cat(cs, n - 1);
    }
  }

  /** Any coherent slot renders to a field that shows the same thing. */
  lemma ChunkTravels(def: FieldDef, sl: Slot, src: Option<seq<byte>>)
    requires UsableDef(def) && SlotCoherent(def, sl, src)
    ensures Chunk(def, sl, src).Ok?
    ensures var c := Chunk(def, sl, src).value; IsField(def, c) && ViewField(def, c) == ViewSlot(def, sl, src)
    decreases def, 2
  {
    if sl.fromSrc {
      CleanChunk(def, sl, src);
    } else if def.codec.ScalarCodec? {
      ScalarChunk(def, sl, src);
    } else {
      CompositeChunk(def, sl, src);
    }
  }

  /** A prefix and a child rendering: the field shows whatever the child's wire shows. */
  lemma PrefixedComposite(def: FieldDef, body: seq<byte>) returns (prefix: seq<byte>)
    requires UsableDef(def) && def.codec.Subfield?
    requires Room(def.layout, |body|)
    ensures if def.layout.length.None? then prefix == []
            else LC.WriteLen(def.layout.length.value, |body|) == Ok(prefix)
    ensures IsField(def, prefix + body) && ViewField(def, prefix + body) == ViewBody(def, body, |body|)
  {
    prefix := [];
    if def.layout.length.Some? {
      LC.PrefixRoundTrip(def.layout.length.value, def.layout.maxLen, |body|, [], 0);
      prefix := LC.WriteLen(def.layout.length.value, |body|).value;
    }
    PrefixedIsField(def, prefix, body, |body|);
  }

  lemma CompositeChunkIs(def: FieldDef, sl: Slot, src: Option<seq<byte>>, body: seq<byte>, prefix: seq<byte>)
    requires def.codec.Subfield? && !sl.fromSrc && sl.v.s.kind.KComposite? && sl.v.sub.Some?
    requires MarshalSpec(def.codec.sub, sl.v.sub.value) == Ok(body)
    requires if def.layout.length.None? then prefix == []
             else LC.WriteLen(def.layout.length.value, |body|) == Ok(prefix)
    ensures Chunk(def, sl, src) == Ok(prefix + body)
  {
    assert [] + body == body;
  }

  /** A re-encoded composite parses back to a child that shows the same fields. */
  lemma CompositeChunk(def: FieldDef, sl: Slot, src: Option<seq<byte>>)
    requires UsableDef(def) && def.codec.Subfield? && !sl.fromSrc && SlotCoherent(def, sl, src)
    ensures Chunk(def, sl, src).Ok?
    ensures var c := Chunk(def, sl, src).value; IsField(def, c) && ViewField(def, c) == ViewSlot(def, sl, src)
    decreases def, 1
  {
    var sub, child := def.codec.sub, sl.v.sub.value;
    RoundTrips(sub, child);
    var body := MarshalSpec(sub, child).value;
    var prefix := PrefixedComposite(def, body);
    CompositeChunkIs(def, sl, src, body, prefix);
  }

  /** Every present element of a coherent message renders to a field that shows what the
      element meant. */
  lemma ElementSent(s: Schema, m: Msg, de: nat)
    requires UsableSchema(s) && Coherent(s, m) && de < |m.slots| && m.slots[de].present
    ensures Framed(s, m, de) && Sent(s, m, de) == ViewSlot(FieldOf(s, de).value, m.slots[de], m.src)
    ensures m.slots[de].fromSrc ==>
              && InSource(m.slots[de], m.src)
              && Chunk(FieldOf(s, de).value, m.slots[de], m.src).value == m.src.value[m.slots[de].wireOff..m.slots[de].bodyEnd]
    decreases s, 3
  {
    assert ElementSound(s, m, de);
    var def := FieldOf(s, de).value;
    assert UsableDef(def);
    ChunkTravels(def, m.slots[de], m.src);
    if m.slots[de].fromSrc { CleanChunk(def, m.slots[de], m.src); }
  }

  /** Marshal's output is a well-framed wire of the message's pieces. */
  lemma Renders(s: Schema, m: Msg)
    requires UsableSchema(s) && AllFramed(s, m)
    ensures MarshalSpec(s, m).Ok? && MtiChunk(s, m).Ok?
    ensures IsHead(s, MtiChunk(s, m).value) && Delimited(s, PiecesOf(s, m))
    ensures BM.Bits(Derived(m.slots, |m.slots|)) == PresentIn(m.slots)
    ensures MarshalSpec(s, m).value == Wire(s, MtiChunk(s, m).value, Derived(m.slots, |m.slots|), PiecesOf(s, m))
  {
    ChunksCat(s, m, |m.slots|);
    forall de | 1 <= de < |m.slots| && m.slots[de].present ensures de <= BM.MAX_DE {
      assert Framed(s, m, de) && BM.Addressable(de, s.levels);
    }
    DerivedBits(m.slots);
    var cs := PiecesOf(s, m);
    forall de | de in cs ensures 1 <= de < |s.defs| && FieldOf(s, de).Some? && IsField(FieldOf(s, de).value, cs[de]) {
      assert Framed(s, m, de);
    }
    if s.mti.Some? { assert Framed(s, m, 0); }
  }

  // ----- what an accepted wire shows -----

  /** A parsed slot: absent, or an undisturbed field of the wire. */
  ghost predicate FreshSlot(s: Schema, w: seq<byte>, de: nat, sl: Slot)
  {
    sl == NO_SLOT || (
      && sl.present && sl.fromSrc && !sl.dirty && !sl.decoded && sl.v == NO_VALUE && FieldOf(s, de).Some?
      && FieldBodySpan(FieldOf(s, de).value, w, sl.wireOff) == Ok(Span(sl.bodyOff, sl.bodyEnd, sl.units)))
  }

  ghost predicate FreshSlots(s: Schema, w: seq<byte>, slots: seq<Slot>)
  {
    forall de :: 0 <= de < |slots| ==> FreshSlot(s, w, de, slots[de])
  }

  lemma {:induction false} FieldsFresh(s: Schema, w: seq<byte>, off: nat, des: seq<nat>, slots: seq<Slot>)
    requires |slots| == |s.defs| && FreshSlots(s, w, slots) && ParseFields(s, w, off, des, slots).Ok?
    ensures FreshSlots(s, w, ParseFields(s, w, off, des, slots).value.slots)
    decreases |des|
  {
    if des != [] {
      FieldsFresh(s, w, off, des[..|des| - 1], slots);
    }
  }

  lemma ParsedFresh(s: Schema, w: seq<byte>)
    requires |s.defs| >= 1 && Parse(s, w).Ok?
    ensures FreshSlots(s, w, Parse(s, w).value.slots)
    ensures s.mti.Some? ==> Parse(s, w).value.slots[0].present
  {
    var m := ParseMti(s, w).value;
    assert FreshSlots(s, w, m.slots);
    var read := BM.ReadSpec(s.repr, w, m.off, s.levels).value;
    var des := BM.Below(BM.Present(read.bm), BM.MAX_DE + 1);
    FieldsFresh(s, w, read.next, des, m.slots);
    FieldsKeep(s, w, read.next, des, m.slots);
  }

  lemma {:induction false} FieldsKeep(s: Schema, w: seq<byte>, off: nat, des: seq<nat>, slots: seq<Slot>)
    requires |slots| == |s.defs| && ParseFields(s, w, off, des, slots).Ok?
    ensures forall de :: 0 <= de < |slots| && slots[de].present ==> ParseFields(s, w, off, des, slots).value.slots[de].present
    decreases |des|
  {
    if des != [] {
      FieldsKeep(s, w, off, des[..|des| - 1], slots);
    }
  }

  /** A freshly decoded message is coherent. */
  lemma DecodedCoherent(s: Schema, w: seq<byte>)
    requires |s.defs| >= 1 && UnmarshalSpec(s, w).Ok?
    ensures Coherent(s, UnmarshalSpec(s, w).value)
  {
    ParsedFresh(s, w);
    var m := UnmarshalSpec(s, w).value;
    forall de | 0 <= de < |m.slots| ensures ElementSound(s, m, de) {
      assert FreshSlot(s, w, de, m.slots[de]);
    }
    forall de | 0 <= de < |m.slots| ensures Forgotten(m.slots[de]) == m.slots[de] {
      assert FreshSlot(s, w, de, m.slots[de]);
    }
  }

  lemma ShowsView(def: FieldDef, w: seq<byte>, sl: Slot, c: seq<byte>)
    requires Shows(def, w, sl, c) && IsField(def, c)
    ensures ViewSlot(def, sl, Some(w)) == ViewField(def, c)
  {
    var sp := FieldBodySpan(def, c, 0).value;
    assert c[0..0 + |c|] == c;
    SpanMoves(def, c, 0, w, sl.wireOff);
    SliceOfSlice(w, sl.wireOff, |c|, sp.bodyOff, |c|);
    assert c[sp.bodyOff..] == w[sl.bodyOff..sl.bodyEnd];
  }

  // ----- the theorem -----

  /** Untouched: the slot still points into the source. Its prefix and body octets are
      the same in the new wire. */
  ghost predicate Verbatim(m: Msg, w: seq<byte>, slots: seq<Slot>)
  {
    && |slots| == |m.slots|
    && forall de :: 0 <= de < |slots| && m.slots[de].present && m.slots[de].fromSrc ==>
         && InSource(m.slots[de], m.src) && InSource(slots[de], Some(w))
         && w[slots[de].wireOff..slots[de].bodyEnd] == m.src.value[m.slots[de].wireOff..m.slots[de].bodyEnd]
  }

  /** Slot by slot, wire w shows what message m meant. */
  ghost predicate SameSlot(s: Schema, m: Msg, w: seq<byte>, de: nat, sl: Slot)
    requires de < |m.slots|
  {
    && sl.present == m.slots[de].present
    && (sl.present ==>
          && FieldOf(s, de).Some?
          && ViewSlot(FieldOf(s, de).value, sl, Some(w)) == ViewSlot(FieldOf(s, de).value, m.slots[de], m.src))
  }

  lemma SameView(s: Schema, m: Msg, m': Msg)
    requires m'.src.Some? && |m.slots| == |m'.slots|
    requires forall de :: 0 <= de < |m.slots| ==> SameSlot(s, m, m'.src.value, de, m'.slots[de])
    ensures View(s, m') == View(s, m)
  {
    forall de | 0 <= de < |m.slots| ensures SameSlot(s, m, m'.src.value, de, m'.slots[de]) {}
  }

  /** The unmodified fast path: the source itself, which parses as it did before. */
  lemma UntouchedRoundTrips(s: Schema, m: Msg)
    requires UsableSchema(s) && Coherent(s, m) && m.src.Some? && !m.owned
    ensures MarshalSpec(s, m) == Ok(m.src.value) && UnmarshalSpec(s, m.src.value).Ok?
    ensures View(s, UnmarshalSpec(s, m.src.value).value) == View(s, m)
    ensures Verbatim(m, m.src.value, UnmarshalSpec(s, m.src.value).value.slots)
  {
    var w := m.src.value;
    var m' := UnmarshalSpec(s, w).value;
    ParsedFresh(s, w);
    forall de | 0 <= de < |m.slots| ensures SameSlot(s, m, w, de, m'.slots[de]) {
      assert Forgotten(m.slots[de]) == m'.slots[de];
      assert FreshSlot(s, w, de, m'.slots[de]);
    }
    SameView(s, m, m');
  }

  /** Slot sl of wire w is element de of m, as it was rendered. */
  ghost predicate Arrived(s: Schema, m: Msg, w: seq<byte>, de: nat, sl: Slot)
    requires AllFramed(s, m) && de < |m.slots|
  {
    && sl.present == m.slots[de].present
    && (sl.present ==>
          && Framed(s, m, de) && ViewSlot(FieldOf(s, de).value, sl, Some(w)) == Sent(s, m, de)
          && InSource(sl, Some(w)) && w[sl.wireOff..sl.bodyEnd] == Chunk(FieldOf(s, de).value, m.slots[de], m.src).value)
  }

  lemma SlotArrived(s: Schema, m: Msg, w: seq<byte>, slots: seq<Slot>, de: nat)
    requires UsableSchema(s) && AllFramed(s, m)
    requires Delimited(s, PiecesOf(s, m)) && MtiChunk(s, m).Ok? && de < |m.slots| == |slots|
    requires ShowsExactly(s, MtiChunk(s, m).value, PiecesOf(s, m), w, slots)
    ensures Arrived(s, m, w, de, slots[de])
  {
    if m.slots[de].present {
      assert Framed(s, m, de);
      var def := FieldOf(s, de).value;
      var c := Chunk(def, m.slots[de], m.src).value;
      assert Shows(def, w, slots[de], c);
      ShowsView(def, w, slots[de], c);
    }
  }

  /** Rendered and parsed: every element arrives, and nothing is left over. */
  lemma FramedParses(s: Schema, m: Msg)
    requires UsableSchema(s) && AllFramed(s, m)
    ensures MarshalSpec(s, m).Ok? && Parse(s, MarshalSpec(s, m).value).Ok?
    ensures var w := MarshalSpec(s, m).value; var p := Parse(s, w).value;
            p.end == |w| && forall de :: 0 <= de < |m.slots| ==> Arrived(s, m, w, de, p.slots[de])
  {
    Renders(s, m);
    var head, b, cs := MtiChunk(s, m).value, Derived(m.slots, |m.slots|), PiecesOf(s, m);
    var w := Wire(s, head, b, cs);
    WireIsWire(s, head, b, cs);
    var slots, bm := WireParses(s, head, b, cs, w);
    forall de | 0 <= de < |m.slots| ensures Arrived(s, m, w, de, slots[de]) {
      SlotArrived(s, m, w, slots, de);
    }
  }

  lemma AllSent(s: Schema, m: Msg)
    requires UsableSchema(s) && Coherent(s, m) && (m.src.None? || m.owned)
    ensures AllFramed(s, m)
    decreases s, 4
  {
    forall de | 0 <= de < |m.slots| && m.slots[de].present ensures Framed(s, m, de) {
      ElementSent(s, m, de);
    }
  }

  lemma RenderedRoundTrips(s: Schema, m: Msg)
    requires UsableSchema(s) && Coherent(s, m) && (m.src.None? || m.owned)
    ensures MarshalSpec(s, m).Ok? && Parse(s, MarshalSpec(s, m).value).Ok?
    ensures Parse(s, MarshalSpec(s, m).value).value.end == |MarshalSpec(s, m).value|
    ensures View(s, UnmarshalSpec(s, MarshalSpec(s, m).value).value) == View(s, m)
    ensures Verbatim(m, MarshalSpec(s, m).value, Parse(s, MarshalSpec(s, m).value).value.slots)
    decreases s, 6
  {
    AllSent(s, m);
    FramedParses(s, m);
    var w := MarshalSpec(s, m).value;
    var slots := Parse(s, w).value.slots;
    forall de | 0 <= de < |m.slots|
      ensures SameSlot(s, m, w, de, slots[de])
      ensures m.slots[de].present && m.slots[de].fromSrc ==>
                && InSource(m.slots[de], m.src) && InSource(slots[de], Some(w))
                && w[slots[de].wireOff..slots[de].bodyEnd] == m.src.value[m.slots[de].wireOff..m.slots[de].bodyEnd]
    {
      assert Arrived(s, m, w, de, slots[de]);
      if m.slots[de].present { ElementSent(s, m, de); }
    }
    SameView(s, m, UnmarshalSpec(s, w).value);
  }

  /** For every usable schema, at any nesting depth, and every coherent message: Marshal
      succeeds, Unmarshal accepts what it wrote and shows the same fields with the same
      canonical values; an untouched field keeps its exact octets; and what Marshal
      rendered is consumed to its last octet. */
  lemma RoundTrips(s: Schema, m: Msg)
    requires UsableSchema(s) && Coherent(s, m)
    ensures MarshalSpec(s, m).Ok? && UnmarshalSpec(s, MarshalSpec(s, m).value).Ok?
    ensures View(s, UnmarshalSpec(s, MarshalSpec(s, m).value).value) == View(s, m)
    ensures Verbatim(m, MarshalSpec(s, m).value, UnmarshalSpec(s, MarshalSpec(s, m).value).value.slots)
    ensures m.src.None? || m.owned ==> Parse(s, MarshalSpec(s, m).value).value.end == |MarshalSpec(s, m).value|
    decreases s, 7
  {
    if m.src.Some? && !m.owned {
      UntouchedRoundTrips(s, m);
    } else {
      RenderedRoundTrips(s, m);
    }
  }
}
