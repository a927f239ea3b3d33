/** Reading and editing a message (iso8583/message.go): lazy decoding, copy-on-write
    Set/SetP/Unset and Clone. Composite children are values held in their parent's slot. */
module Messages {
  import opened Wrappers
  import opened Numerals
  import opened FieldCodecs
  import opened Engine
  import Decimals
  import BM = Bitmaps

  /** What Set accepts: the Go types makeValue switches on. */
  datatype Input =
    | InValue(v: Value) | InString(s: seq<byte>) | InBytes(b: seq<byte>)
    | InInt(n: Decimals.int64) | InUint(u: nat) | InDecimal(d: Decimals.Decimal)

  function KindOf(c: FieldCodec): Kind
  {
    match c
    case Subfield(_) => KComposite
    case ScalarCodec(Text) => KString
    case ScalarCodec(Raw) => KBytes
    case ScalarCodec(HexBin) => KBytes
    case ScalarCodec(NumAscii) => KNumeric
    case ScalarCodec(BcdNum) => KNumeric
    case ScalarCodec(RbcdNum) => KNumeric
    case ScalarCodec(BinNum) => KNumeric
    case ScalarCodec(_) => KAmount
  }

  function NumericKind(k: Kind): Kind { if k.KString? || k.KInvalid? then KNumeric else k }

  function MakeValue(def: FieldDef, x: Input): (r: Result<Value, Engine.Error>)
  {
    var kind := KindOf(def.codec);
    match x
    case InValue(v) => Ok(v)
    case InString(s) =>
      if kind.KAmount? then
        var n := Decimals.ParseInt(s);
        if n.Err? then Err(BadField(BadAmount(n.error)))
        else Ok(Value(Scalar(KAmount, s, Decimals.Decimal(n.value, 0)), None))
      else if kind.KBytes? || kind.KNumeric? then Ok(Value(Scalar(kind, s, NO_AMOUNT), None))
      else Ok(Value(Scalar(KString, s, NO_AMOUNT), None))
    case InBytes(b) => Ok(Value(Scalar(kind, b, NO_AMOUNT), None))
    case InInt(n) =>
      if kind.KAmount? then Ok(Value(Scalar(KAmount, Decimals.FormatInt(n), Decimals.Decimal(n, 0)), None))
      else Ok(Value(Scalar(NumericKind(kind), Decimals.FormatInt(n), NO_AMOUNT), None))
    case InUint(u) => Ok(Value(Scalar(NumericKind(kind), Itoa(u), NO_AMOUNT), None))
    case InDecimal(d) => Ok(Value(Scalar(KAmount, Decimals.Text(d), d), None))
  }

  /** A number stored in an amount field means the same signed or unsigned exactly when it
      is zero: a signed one is the amount, an unsigned one leaves the amount at zero, and
      the field is rendered as zero whatever the number. */
  lemma UnsignedIntoAmount(def: FieldDef, u: nat)
    requires KindOf(def.codec).KAmount?
    ensures MakeValue(def, InUint(u)).Ok? && DecimalOf(MakeValue(def, InUint(u)).value.s).Ok?
    ensures var d := DecimalOf(MakeValue(def, InUint(u)).value.s).value; d.scale == 0 && (d.unscaled == u <==> u == 0)
    ensures u <= Decimals.MAX64 ==>
              && MakeValue(def, InInt(u)).Ok? && DecimalOf(MakeValue(def, InInt(u)).value.s) == Ok(Decimals.Decimal(u, 0))
              && (DecimalOf(MakeValue(def, InUint(u)).value.s) == DecimalOf(MakeValue(def, InInt(u)).value.s) <==> u == 0)
    ensures EncodeBody(def, MakeValue(def, InUint(u)).value) == EncodeBody(def, MakeValue(def, InInt(0)).value)
  {
    var v, zero := MakeValue(def, InUint(u)).value.s, MakeValue(def, InInt(0)).value.s;
    assert AmountUnits(v, def.layout) == AmountUnits(zero, def.layout);
  }

  // ----- operations on the message's state -----

  datatype Got = Got(v: Option<Value>, m: Msg)

  predicate InRange(m: Msg, de: int) { 0 <= de < |m.slots| }

  /** decodeSlot: decode on first access and memoise. */
  function DecodeSlotSpec(m: Msg, de: nat): (g: Got)
    requires InRange(m, de)
  {
    var sl := m.slots[de];
    if !sl.present then Got(None, m)
    else if sl.decoded then Got(Some(sl.v), m)
    else if FieldOf(m.schema, de).None? then Got(None, m)
    else if !sl.fromSrc then Got(Some(sl.v), m.(slots := m.slots[de := sl.(decoded := true)]))
    else if !InSource(sl, m.src) then Got(None, m)
    else
      var d := DecodeBody(FieldOf(m.schema, de).value, m.src.value[sl.bodyOff..sl.bodyEnd], sl.units);
      if d.Err? then Got(None, m)
      else Got(Some(d.value), m.(slots := m.slots[de := sl.(v := d.value, decoded := true)]))
  }

  function GetSpec(m: Msg, de: int): (g: Got)
  {
    if InRange(m, de) then DecodeSlotSpec(m, de) else Got(None, m)
  }

  datatype Edited = Edited(err: Option<Engine.Error>, m: Msg)

  /** The slot update every write shares. */
  function Store(m: Msg, de: nat, v: Value): (r: Msg)
    requires InRange(m, de)
  {
    var sl := m.slots[de].(v := v, present := true, decoded := true, dirty := true, fromSrc := false);
    m.(slots := m.slots[de := sl], owned := true,
       bm := if de >= 1 then BM.Set(m.bm, de) else m.bm,
       dirty := if de >= 1 then BM.Set(m.dirty, de) else m.dirty)
  }

  function SetSpec(m: Msg, de: int, x: Input): (r: Edited)
  {
    if m.sealed then Edited(Some(Sealed), m)
    else if FieldOf(m.schema, de).None? then Edited(Some(UnknownDE), m)
    else
      var v := MakeValue(FieldOf(m.schema, de).value, x);
      if v.Err? then Edited(Some(v.error), m)
      else if !InRange(m, de) then Edited(Some(UnknownDE), m)
      else Edited(None, Store(m, de, v.value))
  }

  function UnsetSpec(m: Msg, de: int): (r: Msg)
  {
    if m.sealed || !InRange(m, de) || !m.slots[de].present then m
    else m.(slots := m.slots[de := NO_SLOT], owned := true, bm := if de >= 1 then BM.Clear(m.bm, de) else m.bm)
  }

  /** ensureChild: the composite child of element de, decoded from the source or fresh,
      with the parent's slot marked for re-encoding. */
  function EnsureChildSpec(m: Msg, de: nat, sub: Schema): (r: (Msg, Msg))
    requires InRange(m, de)
    ensures |r.1.slots| == |m.slots|
  {
    var g := if m.slots[de].present then DecodeSlotSpec(m, de) else Got(None, m);
    if g.v.Some? && g.v.value.s.kind.KComposite? && g.v.value.sub.Some? then
      var sl := g.m.slots[de].(dirty := true, fromSrc := false);
      (g.v.value.sub.value, g.m.(slots := g.m.slots[de := sl], owned := true))
    else
      (New(sub), Store(g.m, de, Value(Scalar(KComposite, [], NO_AMOUNT), Some(New(sub)))))
  }

  /** SetP over positional elements: the last element is set in the innermost child. */
  function SetPathSpec(m: Msg, path: seq<nat>, x: Input): (r: Edited)
    decreases |path|
  {
    if m.sealed then Edited(Some(Sealed), m)
    else if path == [] then Edited(Some(NotPresent), m)
    else if |path| == 1 then SetSpec(m, path[0], x)
    else
      var def := FieldOf(m.schema, path[0]);
      if def.None? || !def.value.codec.Subfield? then Edited(Some(NotComposite), m)
      else if !InRange(m, path[0]) then Edited(Some(UnknownDE), m)
      else
        var (child, parent) := EnsureChildSpec(m, path[0], def.value.codec.sub);
        var e := SetPathSpec(child, path[1..], x);
        Edited(e.err, PutChild(parent, path[0], e.m))
  }

  /** The child is held by value: writing it back is what the shared pointer does in Go. */
  function PutChild(m: Msg, de: nat, child: Msg): (r: Msg)
    requires InRange(m, de)
    ensures |r.slots| == |m.slots|
  {
    m.(slots := m.slots[de := m.slots[de].(v := m.slots[de].v.(sub := Some(child)))])
  }

  /** Clone: shares the source, copies the slots, starts unowned and unsealed. */
  function Clone(m: Msg): (r: Msg)
    decreases m
  {
    m.(owned := false, sealed := false,
       slots := seq(|m.slots|, i requires 0 <= i < |m.slots| => CloneSlot(m.slots[i])))
  }

  function CloneSlot(sl: Slot): (r: Slot)
    decreases sl
  {
    if sl.v.sub.Some? then sl.(v := sl.v.(sub := Some(Clone(sl.v.sub.value)))) else sl
  }

  // ----- the message as an object -----

  class Message {
    var schema: Schema
    var src: Option<seq<byte>>
    var bm: BM.Bitmap
    var slots: seq<Slot>
    var owned: bool
    var dirty: BM.Bitmap
    var sealed: bool

    function State(): Msg
      reads this
    {
      Msg(schema, src, bm, slots, owned, dirty, sealed)
    }

    constructor (m: Msg)
      ensures State() == m
    {
      schema, src, bm, slots, owned, dirty, sealed := m.schema, m.src, m.bm, m.slots, m.owned, m.dirty, m.sealed;
    }

    method Get(de: int) returns (v: Option<Value>)
      modifies this`slots
      ensures v == GetSpec(old(State()), de).v
      ensures State() == GetSpec(old(State()), de).m
    {
      if de < 0 || de >= |slots| { return None; }
      v := DecodeSlot(de);
    }

    method DecodeSlot(de: nat) returns (v: Option<Value>)
      requires InRange(State(), de)
      modifies this`slots
      ensures v == DecodeSlotSpec(old(State()), de).v
      ensures State() == DecodeSlotSpec(old(State()), de).m
    {
      var sl := slots[de];
      if !sl.present { return None; }
      if sl.decoded { return Some(sl.v); }
      var def := FieldOf(schema, de);
      if def.None? { return None; }
      if !sl.fromSrc {
        slots := slots[de := sl.(decoded := true)];
        return Some(sl.v);
      }
      if !InSource(sl, src) { return None; }
      var d := DecodeBody(def.value, src.value[sl.bodyOff..sl.bodyEnd], sl.units);
      if d.Err? { return None; }
      slots := slots[de := sl.(v := d.value, decoded := true)];
      return Some(d.value);
    }

    method Set(de: int, x: Input) returns (err: Option<Engine.Error>)
      modifies this
      ensures Edited(err, State()) == SetSpec(old(State()), de, x)
    {
      if sealed { return Some(Sealed); }
      var def := FieldOf(schema, de);
      if def.None? { return Some(UnknownDE); }
      var val := MakeValue(def.value, x);
      if val.Err? { return Some(val.error); }
      if de < 0 || de >= |slots| { return Some(UnknownDE); }
      Put(de, val.value);
      return None;
    }

    /** The field updates shared by Set and ensureChild. */
    method Put(de: nat, v: Value)
      requires InRange(State(), de)
      modifies this
      ensures State() == Store(old(State()), de, v)
    {
      var sl := slots[de];
      sl := sl.(v := v, present := true, decoded := true);
      sl := sl.(dirty := true, fromSrc := false);
      slots := slots[de := sl];
      owned := true;
      if de >= 1 {
        bm := BM.Set(bm, de);
        dirty := BM.Set(dirty, de);
      }
    }

    method EnsureChild(de: nat, sub: Schema) returns (child: Msg)
      requires InRange(State(), de)
      modifies this
      ensures (child, State()) == EnsureChildSpec(old(State()), de, sub)
    {
      if slots[de].present {
        var v := DecodeSlot(de);
        if v.Some? && v.value.s.kind.KComposite? && v.value.sub.Some? {
          slots := slots[de := slots[de].(dirty := true, fromSrc := false)];
          owned := true;
          return v.value.sub.value;
        }
      }
      child := New(sub);
      Put(de, Value(Scalar(KComposite, [], NO_AMOUNT), Some(child)));
    }

    method SetP(path: seq<nat>, x: Input) returns (err: Option<Engine.Error>)
      modifies this
      ensures Edited(err, State()) == SetPathSpec(old(State()), path, x)
      decreases |path|
    {
      if sealed { return Some(Sealed); }
      if path == [] { return Some(NotPresent); }
      var de := path[0];
      if |path| == 1 {
        err := Set(de, x);
        return;
      }
      var def := FieldOf(schema, de);
      if def.None? || !def.value.codec.Subfield? { return Some(NotComposite); }
      if de >= |slots| { return Some(UnknownDE); }
      var held := EnsureChild(de, def.value.codec.sub);
      var child := new Message(held);
      err := child.SetP(path[1..], x);
      slots := slots[de := slots[de].(v := slots[de].v.(sub := Some(child.State())))];
    }

    method Unset(de: int)
      modifies this
      ensures State() == UnsetSpec(old(State()), de)
    {
      if sealed || de < 0 || de >= |slots| { return; }
      if !slots[de].present { return; }
      slots := slots[de := NO_SLOT];
      if de >= 1 { bm := BM.Clear(bm, de); }
      owned := true;
    }

    method Seal()
      modifies this`sealed
      ensures State() == old(State()).(sealed := true)
    {
      sealed := true;
    }
  }
}
