/** Reads and edits of a message: what every sequence of them keeps, what it changes, and
    what Marshal followed by Unmarshal then delivers. */
module Edits {
  import opened Wrappers
  import opened Numerals
  import opened Engine
  import opened Coherence
  import opened Drafts
  import opened Delivery
  import opened Messages

  // ----- one slot at a time -----

  /** How a value is shown: as decoded if it came off the wire, in the field's canonical
      form if it was set. */
  ghost function Handed(def: FieldDef, fromSrc: bool, v: Value): Tree
  {
    if !fromSrc then ViewValue(def, v)
    else if def.codec.Subfield? && v.sub.Some? then Node(View(def.codec.sub, v.sub.value))
    else Leaf(v.s)
  }

  /** The value of a slot: decoded from the source, or the one that was set. */
  function ValueOf(def: FieldDef, sl: Slot, src: Option<seq<byte>>): Option<Value>
  {
    if !sl.fromSrc then Some(sl.v)
    else if !InSource(sl, src) then None
    else
      var d := DecodeBody(def, src.value[sl.bodyOff..sl.bodyEnd], sl.units);
      if d.Ok? then Some(d.value) else None
  }

  lemma SlotShows(def: FieldDef, sl: Slot, src: Option<seq<byte>>)
    requires LooseSlot(def, sl, src)
    ensures ValueOf(def, sl, src).None? ==> sl.fromSrc && ViewSlot(def, sl, src) == Garbled
    ensures ValueOf(def, sl, src).Some? ==>
              && ViewSlot(def, sl, src) == Handed(def, sl.fromSrc, ValueOf(def, sl, src).value)
              && (sl.fromSrc ==> !ViewSlot(def, sl, src).Garbled?)
    ensures sl.decoded ==> ValueOf(def, sl, src) == Some(sl.v)
  {
  }

  /** The composite a value is, if it is one: what ensureChild looks for. */
  function ChildOf(v: Value): Option<Msg> { if v.s.kind.KComposite? then v.sub else None }

  /** The child a composite slot holds, a draft with the slot's meaning; no child, no meaning. */
  lemma ChildShows(def: FieldDef, sl: Slot, src: Option<seq<byte>>)
    requires UsableDef(def) && def.codec.Subfield? && LooseSlot(def, sl, src) && ValueOf(def, sl, src).Some?
    ensures var sub, child := def.codec.sub, ChildOf(ValueOf(def, sl, src).value);
            if child.None? then ViewSlot(def, sl, src) == Garbled
            else !child.value.sealed && Loose(sub, child.value) && ViewSlot(def, sl, src) == Node(View(sub, child.value))
  {
    SlotShows(def, sl, src);
    if sl.fromSrc {
      var body := src.value[sl.bodyOff..sl.bodyEnd];
      DecodedLoose(def.codec.sub, body);
    }
  }

  lemma DecodedLoose(s: Schema, w: seq<byte>)
    requires UsableSchema(s) && UnmarshalSpec(s, w).Ok?
    ensures Loose(s, UnmarshalSpec(s, w).value)
  {
    DecodedCoherent(s, w);
    assert Coherent(s, UnmarshalSpec(s, w).value);
    SoundIff(s, UnmarshalSpec(s, w).value);
  }

  /** Memoising keeps a slot, and what it shows. */
  lemma Memoised(def: FieldDef, sl: Slot, src: Option<seq<byte>>, sl': Slot)
    requires LooseSlot(def, sl, src) && ValueOf(def, sl, src).Some?
    requires sl' == sl.(v := ValueOf(def, sl, src).value, decoded := true)
    ensures LooseSlot(def, sl', src) && ViewSlot(def, sl', src) == ViewSlot(def, sl, src)
  {
  }

  /** decodeSlot on a draft: the slot's value, memoised. */
  lemma DecodeSlotIs(s: Schema, m: Msg, de: nat)
    requires Loose(s, m) && InRange(m, de) && m.slots[de].present
    ensures LooseElement(s, m, de) && FieldOf(s, de).Some?
    ensures var v := ValueOf(FieldOf(s, de).value, m.slots[de], m.src); var g := DecodeSlotSpec(m, de);
            && g.v == v
            && g.m == if v.None? then m else m.(slots := m.slots[de := m.slots[de].(v := v.value, decoded := true)])
  {
    assert LooseElement(s, m, de);
    SlotShows(FieldOf(s, de).value, m.slots[de], m.src);
  }

  /** Get answers exactly for the elements held, other than those whose octets do not
      decode, and with the meaning the message has there. */
  lemma GetAnswers(s: Schema, m: Msg, de: int)
    requires Loose(s, m)
    ensures GetSpec(m, de).v.Some? <==> de >= 0 && de in View(s, m) && (m.slots[de].fromSrc ==> !View(s, m)[de].Garbled?)
    ensures GetSpec(m, de).v.Some? ==>
              && FieldOf(s, de).Some?
              && View(s, m)[de] == Handed(FieldOf(s, de).value, m.slots[de].fromSrc, GetSpec(m, de).v.value)
  {
    if InRange(m, de) && m.slots[de].present {
      DecodeSlotIs(s, m, de);
      SlotShows(FieldOf(s, de).value, m.slots[de], m.src);
    }
  }

  /** A change to one slot that keeps it loose and, memoised value aside, the same. */
  lemma Retouched(s: Schema, m: Msg, de: nat, sl: Slot)
    requires Loose(s, m) && InRange(m, de) && m.slots[de].present && FieldOf(s, de).Some?
    requires Forgotten(sl) == Forgotten(m.slots[de]) && LooseSlot(FieldOf(s, de).value, sl, m.src)
    requires ViewSlot(FieldOf(s, de).value, sl, m.src) == ViewSlot(FieldOf(s, de).value, m.slots[de], m.src)
    ensures var m' := m.(slots := m.slots[de := sl]); Loose(s, m') && View(s, m') == View(s, m)
  {
    var m' := m.(slots := m.slots[de := sl]);
    assert sl.present == Forgotten(sl).present;
    forall i | 0 <= i < |m.slots| ensures LooseElement(s, m', i) {
      assert LooseElement(s, m, i);
    }
    if m.src.Some? && !m.owned { StillUndisturbed(s, m, de, sl); }
    ReplacedView(s, m, m', de, sl);
    assert View(s, m)[de] == ViewSlot(FieldOf(s, de).value, sl, m.src);
  }

  lemma StillUndisturbed(s: Schema, m: Msg, de: nat, sl: Slot)
    requires Undisturbed(s, m) && InRange(m, de) && Forgotten(sl) == Forgotten(m.slots[de])
    ensures Undisturbed(s, m.(slots := m.slots[de := sl]))
  {
  }

  /** A memoised decode changes neither the invariant nor the meaning, and asking again
      gives the same answer. */
  lemma GetSound(s: Schema, m: Msg, de: int)
    requires Loose(s, m)
    ensures Loose(s, GetSpec(m, de).m) && View(s, GetSpec(m, de).m) == View(s, m)
    ensures GetSpec(GetSpec(m, de).m, de).v == GetSpec(m, de).v
  {
    if InRange(m, de) && m.slots[de].present {
      DecodeSlotIs(s, m, de);
      var def, sl := FieldOf(s, de).value, m.slots[de];
      if ValueOf(def, sl, m.src).Some? {
        var sl' := sl.(v := ValueOf(def, sl, m.src).value, decoded := true);
        Memoised(def, sl, m.src, sl');
        Retouched(s, m, de, sl');
      }
    }
  }

  /** Any owned rewrite of one slot: the others keep their meaning. */
  lemma ReplacedView(s: Schema, m: Msg, m': Msg, de: nat, sl: Slot)
    requires InRange(m, de) && m'.src == m.src && m'.slots == m.slots[de := sl]
    ensures sl.present && FieldOf(s, de).Some? ==>
              View(s, m') == View(s, m)[de := ViewSlot(FieldOf(s, de).value, sl, m.src)]
  {
  }

  lemma RemovedView(s: Schema, m: Msg, m': Msg, de: nat, sl: Slot)
    requires InRange(m, de) && m'.src == m.src && m'.slots == m.slots[de := sl] && !sl.present
    ensures View(s, m') == View(s, m) - {de}
  {
  }

  lemma Replaced(s: Schema, m: Msg, m': Msg, de: nat, sl: Slot)
    requires Loose(s, m) && InRange(m, de)
    requires m'.schema == s && m'.src == m.src && m'.owned && m'.slots == m.slots[de := sl]
    requires sl.present ==> FieldOf(s, de).Some? && LooseSlot(FieldOf(s, de).value, sl, m.src)
    ensures Loose(s, m')
    ensures sl.present ==> View(s, m') == View(s, m)[de := ViewSlot(FieldOf(s, de).value, sl, m.src)]
    ensures !sl.present ==> View(s, m') == View(s, m) - {de}
  {
    forall i | 0 <= i < |m'.slots| ensures LooseElement(s, m', i) {
      assert LooseElement(s, m, i);
    }
    if sl.present { ReplacedView(s, m, m', de, sl); } else { RemovedView(s, m, m', de, sl); }
  }

  // ----- what a write means, on meanings alone -----

  /** The composite at de as a field map: empty where there is none or it is garbled. */
  ghost function Subtree(t: map<nat, Tree>, de: nat): map<nat, Tree>
  {
    if de in t && t[de].Node? then t[de].fields else map[]
  }

  /** SetP on meanings: the addressed leaf is overridden, composites on the way come into
      being, and a write the schema refuses leaves the innermost map it reached alone. */
  ghost function Written(s: Schema, t: map<nat, Tree>, path: seq<nat>, x: Input): map<nat, Tree>
    decreases |path|
  {
    if path == [] || FieldOf(s, path[0]).None? then t
    else
      var de, def := path[0], FieldOf(s, path[0]).value;
      if |path| == 1 then
        var v := MakeValue(def, x);
        if v.Err? then t else t[de := ViewValue(def, v.value)]
      else if def.codec.Subfield? then
        t[de := Node(Written(def.codec.sub, Subtree(t, de), path[1..], x))]
      else t
  }

  /** A composite handed in whole is a draft; anything else may be handed in. */
  ghost predicate GivenLoose(s: Schema, path: seq<nat>, x: Input)
    decreases |path|
  {
    path == [] || FieldOf(s, path[0]).None? ||
    var def := FieldOf(s, path[0]).value;
    if |path| == 1 then MakeValue(def, x).Ok? ==> LooseValue(def, MakeValue(def, x).value)
    else def.codec.Subfield? ==> GivenLoose(def.codec.sub, path[1..], x)
  }

  lemma NewLoose(s: Schema)
    ensures Loose(s, New(s)) && View(s, New(s)) == map[]
  {
  }

  /** ensureChild hands out a draft that means what the composite meant. */
  lemma ChildLoose(s: Schema, m: Msg, de: nat)
    requires UsableSchema(s) && Loose(s, m) && InRange(m, de) && FieldOf(s, de).Some? && FieldOf(s, de).value.codec.Subfield?
    ensures var sub := FieldOf(s, de).value.codec.sub; var r := EnsureChildSpec(m, de, sub);
            UsableSchema(sub) && Loose(sub, r.0) && !r.0.sealed && View(sub, r.0) == Subtree(View(s, m), de)
  {
    var def := FieldOf(s, de).value;
    assert UsableDef(def);
    NewLoose(def.codec.sub);
    if m.slots[de].present {
      DecodeSlotIs(s, m, de);
      assert View(s, m)[de] == ViewSlot(def, m.slots[de], m.src);
      SlotShows(def, m.slots[de], m.src);
      if ValueOf(def, m.slots[de], m.src).Some? { ChildShows(def, m.slots[de], m.src); }
    }
  }

  /** The parent ensureChild leaves: one slot rewritten, holding a composite value. */
  lemma ParentIs(s: Schema, m: Msg, de: nat, sub: Schema)
    requires Loose(s, m) && InRange(m, de) && FieldOf(s, de).Some? && FieldOf(s, de).value.codec == Subfield(sub)
    ensures var p := EnsureChildSpec(m, de, sub).1; var sl := p.slots[de];
            && p.schema == s && p.src == m.src && p.owned && p.sealed == m.sealed && p.slots == m.slots[de := sl]
            && sl.present && !sl.fromSrc && sl.v.s.kind.KComposite?
  {
    if m.slots[de].present {
      DecodeSlotIs(s, m, de);
    }
  }

  lemma {:induction false} SetPathSound(s: Schema, m: Msg, path: seq<nat>, x: Input)
    requires UsableSchema(s) && Loose(s, m) && !m.sealed && GivenLoose(s, path, x)
    ensures var e := SetPathSpec(m, path, x);
            && Loose(s, e.m) && !e.m.sealed && e.m.src == m.src
            && View(s, e.m) == Written(s, View(s, m), path, x)
    decreases |path|
  {
    if path != [] && FieldOf(s, path[0]).Some? {
      var de, def := path[0], FieldOf(s, path[0]).value;
      assert InRange(m, de);
      if |path| == 1 {
        SetSound(s, m, de, x);
      } else if def.codec.Subfield? {
        NestedSetSound(s, m, path, x);
      }
    }
  }

  lemma SetSound(s: Schema, m: Msg, de: nat, x: Input)
    requires UsableSchema(s) && Loose(s, m) && !m.sealed && GivenLoose(s, [de], x)
    ensures var e := SetSpec(m, de, x);
            && Loose(s, e.m) && !e.m.sealed && e.m.src == m.src
            && View(s, e.m) == Written(s, View(s, m), [de], x)
  {
    var e := SetSpec(m, de, x);
    if e.err.None? {
      Replaced(s, m, e.m, de, e.m.slots[de]);
    }
  }

  /** A written child, back in its slot. */
  lemma PutChildSound(s: Schema, m: Msg, de: nat, written: Msg)
    requires Loose(s, m) && InRange(m, de) && FieldOf(s, de).Some? && FieldOf(s, de).value.codec.Subfield?
    requires !written.sealed && Loose(FieldOf(s, de).value.codec.sub, written)
    ensures var sub := FieldOf(s, de).value.codec.sub; var m' := PutChild(EnsureChildSpec(m, de, sub).1, de, written);
            && Loose(s, m') && m'.sealed == m.sealed && m'.src == m.src
            && View(s, m') == View(s, m)[de := Node(View(sub, written))]
  {
    var def := FieldOf(s, de).value;
    ParentIs(s, m, de, def.codec.sub);
    var m' := PutChild(EnsureChildSpec(m, de, def.codec.sub).1, de, written);
    Replaced(s, m, m', de, m'.slots[de]);
  }

  lemma NestedSetSound(s: Schema, m: Msg, path: seq<nat>, x: Input)
    requires UsableSchema(s) && Loose(s, m) && !m.sealed && GivenLoose(s, path, x)
    requires |path| > 1 && InRange(m, path[0]) && FieldOf(s, path[0]).Some? && FieldOf(s, path[0]).value.codec.Subfield?
    ensures var e := SetPathSpec(m, path, x);
            && Loose(s, e.m) && !e.m.sealed && e.m.src == m.src
            && View(s, e.m) == Written(s, View(s, m), path, x)
    decreases |path|, 0
  {
    var de, sub := path[0], FieldOf(s, path[0]).value.codec.sub;
    var child := EnsureChildSpec(m, de, sub).0;
    ChildLoose(s, m, de);
    SetPathSound(sub, child, path[1..], x);
    PutChildSound(s, m, de, SetPathSpec(child, path[1..], x).m);
  }

  // ----- sequences of reads and edits -----

  datatype Edit = Read(de: int) | Write(de: int, x: Input) | WritePath(path: seq<nat>, x: Input) | Remove(de: int)

  function Apply(m: Msg, e: Edit): Msg
  {
    match e
    case Read(de) => GetSpec(m, de).m
    case Write(de, x) => SetSpec(m, de, x).m
    case WritePath(path, x) => SetPathSpec(m, path, x).m
    case Remove(de) => UnsetSpec(m, de)
  }

  function ApplyAll(m: Msg, es: seq<Edit>): Msg
  {
    if es == [] then m else Apply(ApplyAll(m, es[..|es| - 1]), es[|es| - 1])
  }

  /** What one edit does to the meaning. */
  ghost function Overridden(s: Schema, t: map<nat, Tree>, e: Edit): map<nat, Tree>
  {
    match e
    case Read(_) => t
    case Write(de, x) => if de >= 0 then Written(s, t, [de], x) else t
    case WritePath(path, x) => Written(s, t, path, x)
    case Remove(de) => if de >= 0 then t - {de} else t
  }

  ghost function OverriddenAll(s: Schema, t: map<nat, Tree>, es: seq<Edit>): map<nat, Tree>
  {
    if es == [] then t else Overridden(s, OverriddenAll(s, t, es[..|es| - 1]), es[|es| - 1])
  }

  ghost predicate LooseEdit(s: Schema, e: Edit)
  {
    match e
    case Read(_) => true
    case Write(de, x) => de >= 0 ==> GivenLoose(s, [de], x)
    case WritePath(path, x) => GivenLoose(s, path, x)
    case Remove(_) => true
  }

  ghost predicate LooseEdits(s: Schema, es: seq<Edit>) { forall i :: 0 <= i < |es| ==> LooseEdit(s, es[i]) }

  predicate Touches(e: Edit, de: nat)
  {
    match e
    case Read(_) => false
    case Write(d, _) => d == de
    case WritePath(path, _) => path != [] && path[0] == de
    case Remove(d) => d == de
  }

  predicate Untouched(es: seq<Edit>, de: nat)
  {
    forall e :: e in es ==> !Touches(e, de)
  }

  lemma EditSound(s: Schema, m: Msg, e: Edit)
    requires UsableSchema(s) && Loose(s, m) && !m.sealed && LooseEdit(s, e)
    ensures Loose(s, Apply(m, e)) && !Apply(m, e).sealed && Apply(m, e).src == m.src
    ensures View(s, Apply(m, e)) == Overridden(s, View(s, m), e)
  {
    match e
    case Read(de) => GetSound(s, m, de);
    case Write(de, x) => if de >= 0 { SetSound(s, m, de, x); }
    case WritePath(path, x) => SetPathSound(s, m, path, x);
    case Remove(de) =>
      if InRange(m, de) && m.slots[de].present { Replaced(s, m, UnsetSpec(m, de), de, NO_SLOT); }
  }

  lemma EditKeeps(m: Msg, e: Edit, de: nat)
    requires InRange(m, de) && !Touches(e, de)
    ensures InRange(Apply(m, e), de) && Forgotten(Apply(m, e).slots[de]) == Forgotten(m.slots[de])
  {
  }

  /** Any run of reads and edits, whatever fits on the way, keeps the message a draft, and its
      meaning is the original one with the edits applied in order. */
  lemma {:induction false} EditsSound(s: Schema, m: Msg, es: seq<Edit>)
    requires UsableSchema(s) && Loose(s, m) && !m.sealed && LooseEdits(s, es)
    ensures Loose(s, ApplyAll(m, es)) && !ApplyAll(m, es).sealed && ApplyAll(m, es).src == m.src
    ensures View(s, ApplyAll(m, es)) == OverriddenAll(s, View(s, m), es)
  {
    if es != [] {
      EditsSound(s, m, es[..|es| - 1]);
      EditSound(s, ApplyAll(m, es[..|es| - 1]), es[|es| - 1]);
    }
  }

  lemma {:induction false} EditsKeep(m: Msg, es: seq<Edit>, de: nat)
    requires InRange(m, de) && Untouched(es, de)
    ensures InRange(ApplyAll(m, es), de) && Forgotten(ApplyAll(m, es).slots[de]) == Forgotten(m.slots[de])
  {
    if es != [] {
      EditsKeep(m, es[..|es| - 1], de);
      EditKeeps(ApplyAll(m, es[..|es| - 1]), es[|es| - 1], de);
    }
  }

  // ----- delivery -----

  /** Element de occupies the same octets, prefix and body, in both wires. */
  ghost predicate SameOctets(wire: seq<byte>, sl: Slot, w: seq<byte>, sl': Slot)
  {
    && InSource(sl, Some(wire)) && InSource(sl', Some(w))
    && w[sl'.wireOff..sl'.bodyEnd] == wire[sl.wireOff..sl.bodyEnd]
  }

  /** The finished message fits: it has its MTI and every value set is one its field carries. */
  ghost predicate Finished(s: Schema, m: Msg) { HasMti(s, m) && AllFit(s, m) }

  lemma FinishedDelivers(s: Schema, m: Msg, es: seq<Edit>)
    requires UsableSchema(s) && Loose(s, m) && !m.sealed && LooseEdits(s, es) && Finished(s, ApplyAll(m, es))
    ensures Coherent(s, ApplyAll(m, es))
    ensures var w := MarshalSpec(s, ApplyAll(m, es));
            && w.Ok? && UnmarshalSpec(s, w.value).Ok?
            && View(s, UnmarshalSpec(s, w.value).value) == OverriddenAll(s, View(s, m), es)
  {
    EditsSound(s, m, es);
    SoundIff(s, ApplyAll(m, es));
    Delivery.RoundTrips(s, ApplyAll(m, es));
  }

  /** Decode, edit, encode, decode: exactly the original fields overridden by the edits. */
  lemma EditedWireDelivers(s: Schema, wire: seq<byte>, es: seq<Edit>)
    requires UsableSchema(s) && UnmarshalSpec(s, wire).Ok? && LooseEdits(s, es)
    requires Finished(s, ApplyAll(UnmarshalSpec(s, wire).value, es))
    ensures var m := UnmarshalSpec(s, wire).value; var w := MarshalSpec(s, ApplyAll(m, es));
            && w.Ok? && UnmarshalSpec(s, w.value).Ok?
            && View(s, UnmarshalSpec(s, w.value).value) == OverriddenAll(s, View(s, m), es)
  {
    DecodedLoose(s, wire);
    FinishedDelivers(s, UnmarshalSpec(s, wire).value, es);
  }

  /** Every field no edit touches goes out with the octets it came in with. */
  lemma UntouchedOctets(s: Schema, wire: seq<byte>, es: seq<Edit>, de: nat)
    requires UsableSchema(s) && UnmarshalSpec(s, wire).Ok? && LooseEdits(s, es) && Untouched(es, de)
    requires var m := UnmarshalSpec(s, wire).value;
             Finished(s, ApplyAll(m, es)) && InRange(m, de) && m.slots[de].present
    ensures var m := UnmarshalSpec(s, wire).value; var w := MarshalSpec(s, ApplyAll(m, es));
            && w.Ok? && UnmarshalSpec(s, w.value).Ok?
            && var m' := UnmarshalSpec(s, w.value).value;
            && InRange(m', de) && SameOctets(wire, m.slots[de], w.value, m'.slots[de])
  {
    var m := UnmarshalSpec(s, wire).value;
    var edited := ApplyAll(m, es);
    DecodedLoose(s, wire);
    FinishedDelivers(s, m, es);
    EditsSound(s, m, es);
    EditsKeep(m, es, de);
    Delivery.RoundTrips(s, edited);
    ParsedFresh(s, wire);
    assert FreshSlot(s, wire, de, m.slots[de]);
    assert edited.slots[de].present && edited.slots[de].fromSrc;
  }

  /** A message built from nothing arrives as the edits that built it. */
  lemma BuiltMessageDelivers(s: Schema, es: seq<Edit>)
    requires UsableSchema(s) && LooseEdits(s, es) && Finished(s, ApplyAll(New(s), es))
    ensures var w := MarshalSpec(s, ApplyAll(New(s), es));
            && w.Ok? && UnmarshalSpec(s, w.value).Ok?
            && View(s, UnmarshalSpec(s, w.value).value) == OverriddenAll(s, map[], es)
  {
    NewLoose(s);
    FinishedDelivers(s, New(s), es);
  }

  /** A sealed message refuses every edit. */
  lemma SealedRefuses(m: Msg, e: Edit)
    requires m.sealed && !e.Read?
    ensures Apply(m, e) == m
    ensures e.Write? ==> SetSpec(m, e.de, e.x).err == Some(Sealed)
    ensures e.WritePath? ==> SetPathSpec(m, e.path, e.x).err == Some(Sealed)
  {
  }

  /** Whatever is tried on a sealed message, it goes on meaning what it meant, and what it
      sends is read as that. */
  lemma {:induction false} SealedKeeps(s: Schema, m: Msg, es: seq<Edit>)
    requires UsableSchema(s) && Coherent(s, m) && m.sealed
    ensures var m' := ApplyAll(m, es); Coherent(s, m') && m'.sealed && View(s, m') == View(s, m)
    ensures var w := MarshalSpec(s, ApplyAll(m, es));
            w.Ok? && UnmarshalSpec(s, w.value).Ok? && View(s, UnmarshalSpec(s, w.value).value) == View(s, m)
    decreases |es|
  {
    if es != [] {
      var before, e := ApplyAll(m, es[..|es| - 1]), es[|es| - 1];
      SealedKeeps(s, m, es[..|es| - 1]);
      if e.Read? { ReadKeeps(s, before, e.de); } else { SealedRefuses(before, e); }
    }
    Delivery.RoundTrips(s, ApplyAll(m, es));
  }

  lemma ReadKeeps(s: Schema, m: Msg, de: int)
    requires UsableSchema(s) && Coherent(s, m)
    ensures var m' := GetSpec(m, de).m; Coherent(s, m') && m'.sealed == m.sealed && View(s, m') == View(s, m)
  {
    var m' := GetSpec(m, de).m;
    SoundIff(s, m);
    GetSound(s, m, de);
    forall i | 0 <= i < |m'.slots| ensures ElementFits(s, m', i) {
      assert ElementFits(s, m, i);
    }
    SoundIff(s, m');
  }
}
