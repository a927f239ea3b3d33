/** What a message means, and the invariant under which Marshal and Unmarshal carry
    that meaning over the wire. */
module Coherence {
  import opened Wrappers
  import opened Numerals
  import opened FieldCodecs
  import opened Engine
  import LC = LengthCodecs
  import BM = Bitmaps

  // ----- usable schemas -----

  /** A schema whose elements the bitmap can address and whose fields delimit themselves. */
  ghost predicate UsableSchema(s: Schema)
    decreases s, 1
  {
    && 1 <= s.levels <= 3 && |s.defs| >= 1
    && (s.mti.Some? ==> UsableDef(s.mti.value))
    && forall de :: 0 < de < |s.defs| && s.defs[de].Some? ==> BM.Addressable(de, s.levels) && UsableDef(s.defs[de].value)
  }

  ghost predicate UsableDef(def: FieldDef)
    decreases def, 0
  {
    match def.codec
    case ScalarCodec(c) => WellFormed(c, def.layout)
    case Subfield(sub) =>
      && (def.layout.length.Some? && def.layout.length.value.VarLen? ==> def.layout.length.value.width >= 1)
      && sub.mti.None? && UsableSchema(sub)
  }

  // ----- meaning -----

  /** A message read out in full: scalars in canonical form, composites as nested
      field maps, and `Garbled` where the body does not decode (Get answers false). */
  datatype Tree = Leaf(s: Scalar) | Node(fields: map<nat, Tree>) | Garbled

  ghost function View(s: Schema, m: Msg): (t: map<nat, Tree>)
    decreases s, 3
  {
    map de | 0 <= de < |m.slots| && m.slots[de].present && FieldOf(s, de).Some? ::
      ViewSlot(FieldOf(s, de).value, m.slots[de], m.src)
  }

  ghost function ViewSlot(def: FieldDef, sl: Slot, src: Option<seq<byte>>): Tree
    decreases def, 2
  {
    if !sl.fromSrc then ViewValue(def, sl.v)
    else if InSource(sl, src) then ViewBody(def, src.value[sl.bodyOff..sl.bodyEnd], sl.units)
    else Garbled
  }

  ghost function ViewBody(def: FieldDef, body: seq<byte>, units: nat): Tree
    decreases def, 1
  {
    var d := DecodeBody(def, body, units);
    if d.Err? then Garbled
    else if def.codec.Subfield? && d.value.sub.Some? then Node(View(def.codec.sub, d.value.sub.value))
    else Leaf(d.value.s)
  }

  ghost function ViewValue(def: FieldDef, v: Value): Tree
    decreases def, 1
  {
    match def.codec
    case ScalarCodec(c) => Leaf(Canonical(c, v.s, def.layout))
    case Subfield(sub) => if v.sub.Some? then Node(View(sub, v.sub.value)) else Garbled
  }

  // ----- the invariant -----

  /** The length prefix (or fixed width) has room for a rendering of n octets. */
  predicate Room(l: Layout, n: nat)
  {
    if l.length.None? then n == l.maxLen else LC.Carries(l.length.value, l.maxLen, n)
  }

  /** A value the field can carry; for a composite, a coherent child whose rendering
      the length prefix (or fixed width) has room for. */
  ghost predicate Carried(def: FieldDef, v: Value)
    decreases def, 2
  {
    match def.codec
    case ScalarCodec(c) => (def.layout.length.Some? ==> CountsRaw(v.s)) && Fits(c, v.s, def.layout)
    case Subfield(sub) =>
      && v.s.kind.KComposite? && v.sub.Some? && !v.sub.value.sealed && Coherent(sub, v.sub.value)
      && (MarshalSpec(sub, v.sub.value).Ok? ==> Room(def.layout, |MarshalSpec(sub, v.sub.value).value|))
  }

  /** A slot either points at an undisturbed field of the source or holds a value to
      be re-encoded; a memoised value is what the source decodes to. */
  ghost predicate SlotCoherent(def: FieldDef, sl: Slot, src: Option<seq<byte>>)
    decreases def, 3
  {
    if sl.fromSrc then
      && !sl.dirty && InSource(sl, src)
      && FieldBodySpan(def, src.value, sl.wireOff) == Ok(Span(sl.bodyOff, sl.bodyEnd, sl.units))
      && (sl.decoded ==> DecodeBody(def, src.value[sl.bodyOff..sl.bodyEnd], sl.units) == Ok(sl.v))
    else
      Carried(def, sl.v)
  }

  function Forgotten(sl: Slot): Slot { sl.(v := NO_VALUE, decoded := false) }

  /** Slots agree with a fresh parse of the source, memoised values aside. */
  ghost predicate Undisturbed(s: Schema, m: Msg)
  {
    && m.src.Some? && Parse(s, m.src.value).Ok?
    && var p := Parse(s, m.src.value).value;
    && |p.slots| == |m.slots|
    && forall de :: 0 <= de < |m.slots| ==> Forgotten(m.slots[de]) == p.slots[de]
  }

  ghost predicate ElementSound(s: Schema, m: Msg, de: nat)
    requires de < |m.slots|
    decreases s, 3
  {
    m.slots[de].present ==> FieldOf(s, de).Some? && SlotCoherent(FieldOf(s, de).value, m.slots[de], m.src)
  }

  /** The invariant every read and edit keeps. */
  ghost predicate Sound(s: Schema, m: Msg)
    decreases s, 4
  {
    && m.schema == s && |m.slots| == |s.defs|
    && (forall de :: 0 <= de < |m.slots| ==> ElementSound(s, m, de))
    && (m.src.Some? && !m.owned ==> Undisturbed(s, m))
  }

  predicate HasMti(s: Schema, m: Msg)
  {
    s.mti.Some? ==> m.slots != [] && m.slots[0].present
  }

  /** A message Marshal can render: sound, and with its MTI where the schema wants one. */
  ghost predicate Coherent(s: Schema, m: Msg)
    decreases s, 5
  {
    Sound(s, m) && HasMti(s, m)
  }

  // ----- a field on the wire -----

  lemma PrefixMoves(lc: LC.LengthCodec, maxLen: nat, src: seq<byte>, off: nat, n: nat, src': seq<byte>, off': nat)
    requires LC.ReadLen(lc, maxLen, src, off).Ok? && off + LC.PrefixBytes(lc) <= off + n
    requires off + n <= |src| && off' + n <= |src'| && src[off..off + n] == src'[off'..off' + n]
    ensures var p := LC.ReadLen(lc, maxLen, src, off).value;
            LC.ReadLen(lc, maxLen, src', off') == Ok(LC.Prefix(p.units, p.next - off + off'))
  {
    var k := LC.PrefixBytes(lc);
    SliceOfSlice(src, off, n, 0, k);
    SliceOfSlice(src', off', n, 0, k);
  }

  lemma PrefixLength(lc: LC.LengthCodec, maxLen: nat, src: seq<byte>, off: nat)
    requires LC.ReadLen(lc, maxLen, src, off).Ok?
    ensures LC.ReadLen(lc, maxLen, src, off).value.next == off + LC.PrefixBytes(lc)
  {
  }

  /** A field's span depends on its own octets only: the same octets at another offset
      of another buffer parse to the same field, moved. */
  lemma SpanMoves(def: FieldDef, src: seq<byte>, off: nat, src': seq<byte>, off': nat)
    requires FieldBodySpan(def, src, off).Ok?
    requires var n := FieldBodySpan(def, src, off).value.bodyEnd - off;
             off' + n <= |src'| && src'[off'..off' + n] == src[off..off + n]
    ensures var sp := FieldBodySpan(def, src, off).value;
            FieldBodySpan(def, src', off') == Ok(Span(sp.bodyOff - off + off', sp.bodyEnd - off + off', sp.units))
  {
    var n := FieldBodySpan(def, src, off).value.bodyEnd - off;
    if def.layout.length.Some? {
      var lc := def.layout.length.value;
      PrefixLength(lc, def.layout.maxLen, src, off);
      PrefixMoves(lc, def.layout.maxLen, src, off, n, src', off');
    }
  }

  /** A chunk is a self-delimiting field: parsed at offset 0 it is consumed whole. */
  predicate IsField(def: FieldDef, c: seq<byte>)
  {
    FieldBodySpan(def, c, 0).Ok? && FieldBodySpan(def, c, 0).value.bodyEnd == |c|
  }

  /** What a self-delimiting field shows. */
  ghost function ViewField(def: FieldDef, c: seq<byte>): Tree
    requires IsField(def, c)
  {
    var sp := FieldBodySpan(def, c, 0).value;
    ViewBody(def, c[sp.bodyOff..], sp.units)
  }

  /** A clean field copied out of its source still parses, to the same body. */
  lemma CleanChunk(def: FieldDef, sl: Slot, src: Option<seq<byte>>)
    requires sl.fromSrc && SlotCoherent(def, sl, src)
    ensures Chunk(def, sl, src) == Ok(src.value[sl.wireOff..sl.bodyEnd])
    ensures var c := Chunk(def, sl, src).value; IsField(def, c) && ViewField(def, c) == ViewSlot(def, sl, src)
  {
    var c := src.value[sl.wireOff..sl.bodyEnd];
    SpanMoves(def, src.value, sl.wireOff, c, 0);
    var sp := Span(sl.bodyOff - sl.wireOff, |c|, sl.units);
    SliceOfSlice(src.value, sl.wireOff, |c|, sp.bodyOff, |c|);
    assert c[sp.bodyOff..] == src.value[sl.bodyOff..sl.bodyEnd];
  }

  /** A prefix (if any) followed by a body of the announced width is a field. */
  lemma PrefixedIsField(def: FieldDef, prefix: seq<byte>, body: seq<byte>, units: nat)
    requires |body| == WireBytes(def, units)
    requires match def.layout.length
             case None => prefix == [] && units == def.layout.maxLen
             case Some(lc) => LC.Carries(lc, def.layout.maxLen, units) && LC.WriteLen(lc, units) == Ok(prefix)
                              && (lc.VarLen? ==> lc.width >= 1)
    ensures IsField(def, prefix + body) && ViewField(def, prefix + body) == ViewBody(def, body, units)
  {
    var c := prefix + body;
    assert c[|prefix|..] == body;
    if def.layout.length.Some? {
      var lc := def.layout.length.value;
      assert |prefix| == LC.PrefixBytes(lc) by { LC.PrefixRoundTrip(lc, def.layout.maxLen, units, c, 0); }
      assert c[0..|prefix|] == prefix;
      LC.PrefixRoundTrip(lc, def.layout.maxLen, units, c, 0);
    }
  }

  /** A re-encoded scalar parses back to its canonical value. */
  lemma ScalarChunk(def: FieldDef, sl: Slot, src: Option<seq<byte>>)
    requires UsableDef(def) && def.codec.ScalarCodec? && !sl.fromSrc && SlotCoherent(def, sl, src)
    ensures Chunk(def, sl, src).Ok?
    ensures var c := Chunk(def, sl, src).value; IsField(def, c) && ViewField(def, c) == ViewSlot(def, sl, src)
  {
    var codec, v, l := def.codec.c, sl.v.s, def.layout;
    ScalarRoundTrip(codec, v, l);
    var body := Encode(codec, v, l).value;
    var units := Units(v, l, body);
    var prefix := [];
    if l.length.Some? {
      LC.PrefixRoundTrip(l.length.value, l.maxLen, units, [], 0);
      prefix := LC.WriteLen(l.length.value, units).value;
    } else {
      assert prefix + body == body;
    }
    PrefixedIsField(def, prefix, body, units);
  }
}
