/** A message being edited (iso8583/message.go): Set and SetP test no length, so between two
    edits it may hold values no field could carry. What it keeps meanwhile, and the test a
    sender can make of the finished message. */
module Drafts {
  import opened Wrappers
  import opened Numerals
  import opened FieldCodecs
  import opened Engine
  import opened Coherence

  // ----- what every edit keeps -----

  /** Any scalar; for a composite no child, or an unsealed draft. */
  ghost predicate LooseValue(def: FieldDef, v: Value)
    decreases def, 0
  {
    def.codec.Subfield? && v.sub.Some? ==>
      v.s.kind.KComposite? && !v.sub.value.sealed && Loose(def.codec.sub, v.sub.value)
  }

  ghost predicate LooseSlot(def: FieldDef, sl: Slot, src: Option<seq<byte>>)
    decreases def, 1
  {
    if sl.fromSrc then SlotCoherent(def, sl, src) else LooseValue(def, sl.v)
  }

  ghost predicate LooseElement(s: Schema, m: Msg, de: nat)
    requires de < |m.slots|
    decreases s, 0
  {
    m.slots[de].present ==> FieldOf(s, de).Some? && LooseSlot(FieldOf(s, de).value, m.slots[de], m.src)
  }

  /** The invariant of a draft: Sound, but for whether the values set fit. */
  ghost predicate Loose(s: Schema, m: Msg)
    decreases s, 1
  {
    && m.schema == s && |m.slots| == |s.defs|
    && (forall de :: 0 <= de < |m.slots| ==> LooseElement(s, m, de))
    && (m.src.Some? && !m.owned ==> Undisturbed(s, m))
  }

  // ----- what the finished message has to pass -----

  /** The field carries the value; a composite's field has room for its rendering. */
  ghost predicate FitsValue(def: FieldDef, v: Value)
    decreases def, 0
  {
    match def.codec
    case ScalarCodec(c) => (def.layout.length.Some? ==> CountsRaw(v.s)) && Fits(c, v.s, def.layout)
    case Subfield(sub) =>
      && v.sub.Some? && AllFit(sub, v.sub.value)
      && (MarshalSpec(sub, v.sub.value).Ok? ==> Room(def.layout, |MarshalSpec(sub, v.sub.value).value|))
  }

  ghost predicate ElementFits(s: Schema, m: Msg, de: nat)
    requires de < |m.slots|
    decreases s, 0
  {
    m.slots[de].present && !m.slots[de].fromSrc && FieldOf(s, de).Some? ==> FitsValue(FieldOf(s, de).value, m.slots[de].v)
  }

  /** Everything that was set fits its field, all the way down. */
  ghost predicate AllFit(s: Schema, m: Msg)
    decreases s, 1
  {
    forall de :: 0 <= de < |m.slots| ==> ElementFits(s, m, de)
  }

  // ----- together they are the invariant of delivery -----

  lemma CarriedIff(def: FieldDef, v: Value)
    requires UsableDef(def)
    ensures Carried(def, v) <==> LooseValue(def, v) && FitsValue(def, v)
    decreases def, 0
  {
    if def.codec.Subfield? && v.sub.Some? {
      SoundIff(def.codec.sub, v.sub.value);
    }
  }

  lemma ElementIff(s: Schema, m: Msg, de: nat)
    requires UsableSchema(s) && de < |m.slots| == |s.defs|
    ensures ElementSound(s, m, de) <==> LooseElement(s, m, de) && ElementFits(s, m, de)
    decreases s, 0
  {
    if m.slots[de].present && FieldOf(s, de).Some? {
      assert UsableDef(FieldOf(s, de).value);
      CarriedIff(FieldOf(s, de).value, m.slots[de].v);
    }
  }

  /** A message is sound exactly when it is a draft whose every value fits. */
  lemma SoundIff(s: Schema, m: Msg)
    requires UsableSchema(s)
    ensures Sound(s, m) <==> Loose(s, m) && AllFit(s, m)
    decreases s, 1
  {
    if |m.slots| == |s.defs| {
      forall de | 0 <= de < |m.slots| ensures ElementSound(s, m, de) <==> LooseElement(s, m, de) && ElementFits(s, m, de) {
        ElementIff(s, m, de);
      }
    }
  }
}
