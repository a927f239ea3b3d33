/** The schema-driven wire engine (iso8583/codec.go, iso8583/message.go) with nested
    positional composites (fieldcodec/subfield/subfield.go). */
module Engine {
  import opened Wrappers
  import opened Numerals
  import opened FieldCodecs
  import LC = LengthCodecs
  import BM = Bitmaps

  // ----- data model -----

  /** `defs` is indexed by data element; the MTI (element 0) is kept apart. */
  datatype Schema = Schema(mti: Option<FieldDef>, repr: BM.Repr, levels: nat, defs: seq<Option<FieldDef>>)

  datatype FieldDef = FieldDef(codec: FieldCodec, layout: Layout)

  datatype FieldCodec = ScalarCodec(c: Codec) | Subfield(sub: Schema)

  datatype Value = Value(s: Scalar, sub: Option<Msg>)

  datatype Slot = Slot(
    v: Value, present: bool, decoded: bool, dirty: bool, fromSrc: bool,
    units: nat, wireOff: nat, bodyOff: nat, bodyEnd: nat)

  datatype Msg = Msg(
    schema: Schema, src: Option<seq<byte>>, bm: BM.Bitmap, slots: seq<Slot>,
    owned: bool, dirty: BM.Bitmap, sealed: bool)

  datatype Error =
    | Truncated | UnknownDE | NotComposite | Sealed | NotPresent | BadPath
    | BadPrefix(LC.Error) | BadBitmap(BM.Error) | BadField(FieldCodecs.Error)
    | BadSpan // a slot pointing outside its source: Go would panic; see Coherent

  const NO_SCALAR: Scalar := Scalar(KInvalid, [], NO_AMOUNT)
  const NO_VALUE: Value := Value(NO_SCALAR, None)
  const NO_SLOT: Slot := Slot(NO_VALUE, false, false, false, false, 0, 0, 0, 0)

  function FieldOf(s: Schema, de: int): (d: Option<FieldDef>)
    ensures d.Some? ==> d.value < s
  {
    if de == 0 then s.mti
    else if 0 < de < |s.defs| then s.defs[de]
    else None
  }

  function EmptySlots(s: Schema): seq<Slot> { seq(|s.defs|, _ => NO_SLOT) }

  function New(s: Schema): Msg
  {
    Msg(s, None, BM.Empty(), EmptySlots(s), true, BM.Empty(), false)
  }

  // ----- structural parse -----

  datatype Span = Span(bodyOff: nat, bodyEnd: nat, units: nat)

  function WireBytes(def: FieldDef, units: nat): nat
  {
    match def.codec
    case ScalarCodec(c) => BodyBytes(c, units)
    case Subfield(_) => units
  }

  function FieldBodySpan(def: FieldDef, src: seq<byte>, off: nat): (r: Result<Span, Error>)
    ensures r.Ok? ==> off <= r.value.bodyOff <= r.value.bodyEnd <= |src|
  {
    if off > |src| then Err(Truncated) else
      var p: Result<LC.Prefix, LC.Error> := if def.layout.length.None? then Result.Ok(LC.Prefix(def.layout.maxLen, off))
               else LC.ReadLen(def.layout.length.value, def.layout.maxLen, src, off);
      if p.Err? then Err(BadPrefix(p.error)) else
        var bodyEnd := p.value.next + WireBytes(def, p.value.units);
        if bodyEnd > |src| then Err(Truncated) else Ok(Span(p.value.next, bodyEnd, p.value.units))
  }

  function SlotAt(off: nat, sp: Span): Slot
  {
    Slot(NO_VALUE, true, false, false, true, sp.units, off, sp.bodyOff, sp.bodyEnd)
  }

  datatype Spans = Spans(slots: seq<Slot>, off: nat)

  /** The fields `des`, in order, from off on. */
  function ParseFields(s: Schema, src: seq<byte>, off: nat, des: seq<nat>, slots: seq<Slot>): (r: Result<Spans, Error>)
    requires |slots| == |s.defs|
    ensures r.Ok? ==> |r.value.slots| == |slots|
    decreases |des|
  {
    if des == [] then Ok(Spans(slots, off)) else
      var p :- ParseFields(s, src, off, des[..|des| - 1], slots);
      ParseOne(s, src, des[|des| - 1], p)
  }

  function ParseOne(s: Schema, src: seq<byte>, de: nat, p: Spans): (r: Result<Spans, Error>)
    requires |p.slots| == |s.defs|
    ensures r.Ok? ==> |r.value.slots| == |p.slots|
  {
    var def := FieldOf(s, de);
    if def.None? then Err(UnknownDE) else
      var sp :- FieldBodySpan(def.value, src, p.off);
      Ok(Spans(if de < |p.slots| then p.slots[de := SlotAt(p.off, sp)] else p.slots, sp.bodyEnd))
  }

  function ParseMti(s: Schema, wire: seq<byte>): (r: Result<Spans, Error>)
    ensures r.Ok? ==> |r.value.slots| == |s.defs|
  {
    if s.mti.None? then Ok(Spans(EmptySlots(s), 0)) else
      var sp :- FieldBodySpan(s.mti.value, wire, 0);
      var slots := EmptySlots(s);
      Ok(Spans(if slots == [] then slots else slots[0 := SlotAt(0, sp)], sp.bodyEnd))
  }

  datatype Parsed = Parsed(slots: seq<Slot>, bm: BM.Bitmap, end: nat)

  /** Unmarshal's slots, and the offset it stops at. */
  function Parse(s: Schema, wire: seq<byte>): (r: Result<Parsed, Error>)
    ensures r.Ok? ==> |r.value.slots| == |s.defs|
  {
    var m :- ParseMti(s, wire);
    var b := BM.ReadSpec(s.repr, wire, m.off, s.levels);
    if b.Err? then Err(BadBitmap(b.error)) else
      var f :- ParseFields(s, wire, b.value.next, BM.Below(BM.Present(b.value.bm), BM.MAX_DE + 1), m.slots);
      Ok(Parsed(f.slots, b.value.bm, f.off))
  }

  function UnmarshalSpec(s: Schema, wire: seq<byte>): (r: Result<Msg, Error>)
  {
    var p :- Parse(s, wire);
    Ok(Msg(s, Some(wire), p.bm, p.slots, false, BM.Empty(), false))
  }

  // ----- lazy decoding -----

  function DecodeBody(def: FieldDef, body: seq<byte>, units: nat): (r: Result<Value, Error>)
  {
    match def.codec
    case ScalarCodec(c) =>
      (var d := Decode(c, body, units, def.layout);
      if d.Err? then Err(BadField(d.error)) else Ok(Value(d.value, None)))
    case Subfield(sub) =>
      var child :- UnmarshalSpec(sub, body);
      Ok(Value(Scalar(KComposite, body, NO_AMOUNT), Some(child)))
  }

  // ----- rendering -----

  predicate InSource(sl: Slot, src: Option<seq<byte>>)
  {
    src.Some? && sl.wireOff <= sl.bodyOff <= sl.bodyEnd <= |src.value|
  }

  function EncodeBody(def: FieldDef, v: Value): (r: Result<seq<byte>, Error>)
    decreases def, 1
  {
    match def.codec
    case ScalarCodec(c) =>
      (var e := Encode(c, v.s, def.layout);
      if e.Err? then Err(BadField(e.error)) else Ok(e.value))
    case Subfield(sub) =>
      if v.s.kind.KComposite? && v.sub.Some? then MarshalSpec(sub, v.sub.value) else Err(NotComposite)
  }

  /** The octets appendField appends: a clean field verbatim, any other re-encoded. */
  function Chunk(def: FieldDef, sl: Slot, src: Option<seq<byte>>): (r: Result<seq<byte>, Error>)
    decreases def, 2
  {
    if sl.fromSrc && !sl.dirty && src.Some? then
      if InSource(sl, src) then Ok(src.value[sl.wireOff..sl.bodyEnd]) else Err(BadSpan)
    else
      var body :- EncodeBody(def, sl.v);
      if def.layout.length.None? then Ok(body) else
        var p := LC.WriteLen(def.layout.length.value, EncodeUnits(sl.v.s, def.layout, body));
        if p.Err? then Err(BadPrefix(p.error)) else Ok(p.value + body)
  }

  /** The present fields among elements 1..n-1, rendered in order. */
  function Chunks(s: Schema, slots: seq<Slot>, src: Option<seq<byte>>, n: nat): (r: Result<seq<byte>, Error>)
    requires n <= |slots|
    decreases s, 3, n
  {
    if n <= 1 then Ok([]) else
      var before :- Chunks(s, slots, src, n - 1);
      var sl := slots[n - 1];
      if !sl.present then Ok(before) else
        var def := FieldOf(s, n - 1);
        if def.None? then Err(UnknownDE) else
          var c :- Chunk(def.value, sl, src);
          Ok(before + c)
  }

  /** The bitmap derived from the present slots. */
  function Derived(slots: seq<Slot>, n: nat): (b: BM.Bitmap)
    requires n <= |slots|
  {
    if n <= 1 then BM.Empty()
    else if slots[n - 1].present then BM.Set(Derived(slots, n - 1), n - 1)
    else Derived(slots, n - 1)
  }

  function MtiChunk(s: Schema, m: Msg): (r: Result<seq<byte>, Error>)
    decreases s, 3, 0
  {
    if s.mti.None? then Ok([])
    else if m.slots == [] then Err(BadSpan)
    else Chunk(s.mti.value, m.slots[0], m.src)
  }

  function MarshalSpec(s: Schema, m: Msg): (r: Result<seq<byte>, Error>)
    decreases s, 4
  {
    if m.src.Some? && !m.owned then Ok(m.src.value) else
      var head :- MtiChunk(s, m);
      var fields :- Chunks(s, m.slots, m.src, |m.slots|);
      Ok(head + BM.WriteSpec(s.repr, Derived(m.slots, |m.slots|), s.levels) + fields)
  }

  // ----- the loops of the source, proved against the functions above -----

  method Unmarshal(s: Schema, wire: seq<byte>) returns (r: Result<Msg, Error>)
    ensures r == UnmarshalSpec(s, wire)
  {
    var m := ParseMti(s, wire);
    if m.Err? { return Err(m.error); }
    var b := BM.ReadBitmap(s.repr, wire, m.value.off, s.levels);
    if b.Err? { return Err(BadBitmap(b.error)); }
    var des := BM.Range(b.value.bm);
    var p := Spans(m.value.slots, b.value.next);
    for i := 0 to |des|
      invariant |p.slots| == |s.defs|
      invariant ParseFields(s, wire, b.value.next, des[..i], m.value.slots) == Ok(p)
    {
      assert des[..i + 1][..i] == des[..i];
      var q := ParseOne(s, wire, des[i], p);
      if q.Err? {
        ErrorIsFinal(s, wire, b.value.next, des, i + 1, m.value.slots);
        return Err(q.error);
      }
      p := q.value;
    }
    assert des[..|des|] == des;
    return Ok(Msg(s, Some(wire), b.value.bm, p.slots, false, BM.Empty(), false));
  }

  lemma {:induction false} ErrorIsFinal(s: Schema, src: seq<byte>, off: nat, des: seq<nat>, k: nat, slots: seq<Slot>)
    requires |slots| == |s.defs| && k <= |des| && ParseFields(s, src, off, des[..k], slots).Err?
    ensures ParseFields(s, src, off, des, slots) == ParseFields(s, src, off, des[..k], slots)
    decreases |des|
  {
    if k < |des| {
      var d := des[..|des| - 1];
      assert d[..k] == des[..k];
      ErrorIsFinal(s, src, off, d, k, slots);
    } else {
      assert des[..k] == des;
    }
  }

  /** Marshal's first loop: the bitmap is derived from the present slots, never hand-set. */
  method DeriveBitmap(slots: seq<Slot>) returns (bm: BM.Bitmap)
    ensures bm == Derived(slots, |slots|)
  {
    bm := BM.Empty();
    if slots == [] { return; }
    for de := 1 to |slots|
      invariant bm == Derived(slots, de)
    {
      if slots[de].present { bm := BM.Set(bm, de); }
    }
  }

  /** Marshal's second loop. */
  method AppendFields(s: Schema, slots: seq<Slot>, src: Option<seq<byte>>, dst: seq<byte>) returns (r: Result<seq<byte>, Error>)
    ensures r == Prepend(dst, Chunks(s, slots, src, |slots|))
  {
    if slots == [] { assert dst == dst + []; return Ok(dst); }
    ghost var fields := [];
    var out := dst;
    for de := 1 to |slots|
      invariant Chunks(s, slots, src, de) == Ok(fields) && out == dst + fields
    {
      if slots[de].present {
        var def := FieldOf(s, de);
        var c := if def.None? then Err(UnknownDE) else Chunk(def.value, slots[de], src);
        if c.Err? {
          ChunksErrorIsFinal(s, slots, src, de + 1, |slots|);
          return Err(c.error);
        }
        out := out + c.value;
        fields := fields + c.value;
      }
    }
    return Ok(out);
  }

  method Marshal(s: Schema, m: Msg, dst: seq<byte>) returns (r: Result<seq<byte>, Error>)
    ensures m.src.Some? && !m.owned ==> r == Ok(m.src.value)
    ensures !(m.src.Some? && !m.owned) ==>
              r == Prepend(dst, MarshalSpec(s, m))
  {
    if m.src.Some? && !m.owned { return Ok(m.src.value); }
    var head := MtiChunk(s, m);
    if head.Err? { return Err(head.error); }
    var bm := DeriveBitmap(m.slots);
    var out := BM.WriteBitmap(s.repr, dst + head.value, bm, s.levels);
    r := AppendFields(s, m.slots, m.src, out);
    AssembledIn(dst, head.value, BM.WriteSpec(s.repr, bm, s.levels), Chunks(s, m.slots, m.src, |m.slots|));
  }

  lemma AssembledIn(dst: seq<byte>, head: seq<byte>, bits: seq<byte>, fields: Result<seq<byte>, Error>)
    ensures Prepend(dst + head + bits, fields) == Prepend(dst, Prepend(head + bits, fields))
  {
    if fields.Ok? {
      assert dst + (head + bits + fields.value) == dst + head + bits + fields.value;
    }
  }

  lemma {:induction false} ChunksErrorIsFinal(s: Schema, slots: seq<Slot>, src: Option<seq<byte>>, k: nat, n: nat)
    requires k <= n <= |slots| && Chunks(s, slots, src, k).Err?
    ensures Chunks(s, slots, src, n) == Chunks(s, slots, src, k)
  {
    if k < n {
      ChunksErrorIsFinal(s, slots, src, k, n - 1);
    }
  }
}
