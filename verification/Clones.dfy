/** Clone (iso8583/message.go): when the copy still sends what the original would, and the
    edits it drops when it does not. */
module Clones {
  import opened Wrappers
  import opened Numerals
  import opened FieldCodecs
  import opened Engine
  import opened Coherence
  import opened Drafts
  import opened Delivery
  import opened Messages
  import Edits
  import BM = Bitmaps

  /** No edit hides behind a source: a decoded message is unedited, and so, all the way
      down, are the decoded composites of a built one. */
  ghost predicate Cloneable(m: Msg)
    decreases m
  {
    if m.src.Some? then !m.owned
    else forall i :: 0 <= i < |m.slots| && m.slots[i].v.sub.Some? ==> Cloneable(m.slots[i].v.sub.value)
  }

  lemma ClonedAt(m: Msg, i: nat)
    requires i < |m.slots|
    ensures |Clone(m).slots| == |m.slots| && Clone(m).slots[i] == CloneSlot(m.slots[i])
    ensures Forgotten(CloneSlot(m.slots[i])) == Forgotten(m.slots[i]) && CloneSlot(m.slots[i]).v.s == m.slots[i].v.s
  {
  }

  /** Cloning a decoded message drops every edit made to it: the copy sends the source. */
  lemma CloneSendsSource(s: Schema, m: Msg)
    requires m.src.Some?
    ensures MarshalSpec(s, Clone(m)) == Ok(m.src.value)
  {
  }

  // ----- a decoded, unedited message -----

  lemma FreshIsItsClone(s: Schema, w: seq<byte>)
    requires |s.defs| >= 1 && UnmarshalSpec(s, w).Ok?
    ensures Clone(UnmarshalSpec(s, w).value) == UnmarshalSpec(s, w).value
  {
    var m := UnmarshalSpec(s, w).value;
    ParsedFresh(s, w);
    forall i | 0 <= i < |m.slots| ensures CloneSlot(m.slots[i]) == m.slots[i] {
      assert FreshSlot(s, w, i, m.slots[i]);
    }
    assert Clone(m).slots == m.slots;
  }

  lemma SourceSlotClone(def: FieldDef, sl: Slot, src: Option<seq<byte>>)
    requires UsableDef(def) && sl.fromSrc && SlotCoherent(def, sl, src)
    ensures SlotCoherent(def, CloneSlot(sl), src) && ViewSlot(def, CloneSlot(sl), src) == ViewSlot(def, sl, src)
  {
    if sl.decoded && sl.v.sub.Some? {
      FreshIsItsClone(def.codec.sub, src.value[sl.bodyOff..sl.bodyEnd]);
    }
  }

  lemma SourceClone(s: Schema, m: Msg)
    requires UsableSchema(s) && Sound(s, m) && m.src.Some? && !m.owned
    ensures Sound(s, Clone(m)) && View(s, Clone(m)) == View(s, m)
  {
    var m' := Clone(m);
    ParsedFresh(s, m.src.value);
    forall i | 0 <= i < |m.slots|
      ensures ElementSound(s, m', i) && Forgotten(m'.slots[i]) == Forgotten(m.slots[i])
      ensures m.slots[i].present ==>
                ViewSlot(FieldOf(s, i).value, m'.slots[i], m.src) == ViewSlot(FieldOf(s, i).value, m.slots[i], m.src)
    {
      SourceElementClone(s, m, i);
    }
  }

  lemma SourceElementClone(s: Schema, m: Msg, i: nat)
    requires UsableSchema(s) && Sound(s, m) && m.src.Some? && !m.owned && i < |m.slots|
    requires FreshSlots(s, m.src.value, Parse(s, m.src.value).value.slots)
    ensures Clone(m).slots[i] == CloneSlot(m.slots[i]) && Forgotten(CloneSlot(m.slots[i])) == Forgotten(m.slots[i])
    ensures ElementSound(s, m, i) && ElementSound(s, Clone(m), i)
    ensures m.slots[i].present ==>
              ViewSlot(FieldOf(s, i).value, CloneSlot(m.slots[i]), m.src) == ViewSlot(FieldOf(s, i).value, m.slots[i], m.src)
  {
    assert ElementSound(s, m, i);
    ClonedAt(m, i);
    if m.slots[i].present {
      assert FreshSlot(s, m.src.value, i, Forgotten(m.slots[i]));
      assert UsableDef(FieldOf(s, i).value);
      SourceSlotClone(FieldOf(s, i).value, m.slots[i], m.src);
    }
  }

  // ----- a built message -----

  /** The cloned slot means the same and renders to the same octets. */
  ghost predicate SlotCloned(def: FieldDef, sl: Slot, src: Option<seq<byte>>)
  {
    && SlotCoherent(def, CloneSlot(sl), src) && ViewSlot(def, CloneSlot(sl), src) == ViewSlot(def, sl, src)
    && Chunk(def, CloneSlot(sl), src) == Chunk(def, sl, src)
  }

  lemma BuiltSlotClone(def: FieldDef, sl: Slot, src: Option<seq<byte>>)
    requires UsableDef(def) && !sl.fromSrc && SlotCoherent(def, sl, src)
    requires sl.v.sub.Some? ==> Cloneable(sl.v.sub.value)
    ensures SlotCloned(def, sl, src)
    decreases def, 1
  {
    assert Carried(def, sl.v);
    if def.codec.Subfield? {
      CloneDelivers(def.codec.sub, sl.v.sub.value);
      ChildCloned(def, sl, src);
    }
  }

  lemma BuiltScalarClone(def: FieldDef, sl: Slot, src: Option<seq<byte>>)
    requires def.codec.ScalarCodec? && !sl.fromSrc && SlotCoherent(def, sl, src)
    ensures SlotCloned(def, sl, src)
  {
  }

  lemma ChildCloned(def: FieldDef, sl: Slot, src: Option<seq<byte>>)
    requires def.codec.Subfield? && !sl.fromSrc && Carried(def, sl.v)
    requires var child := sl.v.sub.value; var sub := def.codec.sub;
             && Coherent(sub, Clone(child)) && View(sub, Clone(child)) == View(sub, child)
             && MarshalSpec(sub, Clone(child)) == MarshalSpec(sub, child)
    ensures SlotCloned(def, sl, src)
  {
    assert Carried(def, CloneSlot(sl).v);
  }

  lemma BuiltElementClone(s: Schema, m: Msg, i: nat)
    requires UsableSchema(s) && Sound(s, m) && m.src.None? && Cloneable(m) && i < |m.slots| && m.slots[i].present
    ensures FieldOf(s, i).Some? && SlotCloned(FieldOf(s, i).value, m.slots[i], m.src)
    decreases s, 1
  {
    assert ElementSound(s, m, i);
    ClonedAt(m, i);
    assert UsableDef(FieldOf(s, i).value);
    assert SlotCoherent(FieldOf(s, i).value, m.slots[i], m.src);
    BuiltSlotClone(FieldOf(s, i).value, m.slots[i], m.src);
  }

  lemma {:induction false} SameChunks(s: Schema, slots: seq<Slot>, slots': seq<Slot>, src: Option<seq<byte>>, n: nat)
    requires n <= |slots| == |slots'|
    requires forall i :: 0 <= i < n ==> slots'[i].present == slots[i].present
    requires forall i :: 0 < i < n && slots[i].present && FieldOf(s, i).Some? ==>
               Chunk(FieldOf(s, i).value, slots'[i], src) == Chunk(FieldOf(s, i).value, slots[i], src)
    ensures Chunks(s, slots', src, n) == Chunks(s, slots, src, n) && Derived(slots', n) == Derived(slots, n)
  {
    if n > 1 {
      SameChunks(s, slots, slots', src, n - 1);
    }
  }

  lemma BuiltClone(s: Schema, m: Msg)
    requires UsableSchema(s) && Coherent(s, m) && m.src.None? && Cloneable(m)
    ensures Sound(s, Clone(m)) && View(s, Clone(m)) == View(s, m)
    ensures MarshalSpec(s, Clone(m)) == MarshalSpec(s, m)
    decreases s, 2
  {
    var m' := Clone(m);
    forall i | 0 <= i < |m.slots| && m.slots[i].present
      ensures FieldOf(s, i).Some? && SlotCloned(FieldOf(s, i).value, m.slots[i], m.src)
    {
      BuiltElementClone(s, m, i);
    }
    forall i | 0 <= i < |m.slots| ensures ElementSound(s, m', i) && m'.slots[i] == CloneSlot(m.slots[i]) {
      ClonedAt(m, i);
      assert m'.slots[i].present == Forgotten(m.slots[i]).present;
    }
    SameChunks(s, m.slots, m'.slots, m.src, |m.slots|);
  }

  /** A cloneable message and its copy send the same octets and mean the same; the copy is
      unsealed. */
  lemma CloneDelivers(s: Schema, m: Msg)
    requires UsableSchema(s) && Coherent(s, m) && Cloneable(m)
    ensures Coherent(s, Clone(m)) && View(s, Clone(m)) == View(s, m) && !Clone(m).sealed
    ensures MarshalSpec(s, Clone(m)) == MarshalSpec(s, m)
    decreases s, 3
  {
    if m.src.Some? { SourceClone(s, m); } else { BuiltClone(s, m); }
  }

  lemma CloneIsCloneable(m: Msg)
    ensures Cloneable(Clone(m))
    decreases m
  {
    if m.src.None? {
      forall i | 0 <= i < |m.slots| && Clone(m).slots[i].v.sub.Some? ensures Cloneable(Clone(m).slots[i].v.sub.value) {
        ClonedAt(m, i);
        CloneIsCloneable(m.slots[i].v.sub.value);
      }
    }
  }

  /** The idempotency store keeps a clone and hands out a clone: a duplicate request gets
      the octets of the first answer, if that answer was cloneable. */
  lemma ReplayedResponse(s: Schema, m: Msg)
    requires UsableSchema(s) && Coherent(s, m) && Cloneable(m)
    ensures MarshalSpec(s, Clone(Clone(m))) == MarshalSpec(s, m)
  {
    CloneDelivers(s, m);
    CloneIsCloneable(m);
    CloneDelivers(s, Clone(m));
  }

  /** Once a decoded message has been edited to mean something else, its copy no longer
      sends what it would send itself. */
  lemma CloneDropsEdits(s: Schema, m: Msg)
    requires UsableSchema(s) && Coherent(s, m) && m.src.Some? && UnmarshalSpec(s, m.src.value).Ok?
    requires View(s, m) != View(s, UnmarshalSpec(s, m.src.value).value)
    ensures !Cloneable(m) && MarshalSpec(s, Clone(m)) != MarshalSpec(s, m)
  {
    CloneSendsSource(s, m);
    Delivery.RoundTrips(s, m);
  }

  // ----- one such message -----

  const OCTET: FieldDef := FieldDef(ScalarCodec(Raw), Layout(None, 1, 0))

  /** Element 2, one raw octet, and nothing else. */
  const SMALL: Schema := Schema(None, BM.BinWord, 1, [None, None, Some(OCTET)])

  function Octet(b: byte): Tree { Leaf(Scalar(KBytes, [b], NO_AMOUNT)) }

  function Write2(b: byte): seq<Edits.Edit> { [Edits.Write(2, InBytes([b]))] }

  lemma SmallUsable()
    ensures UsableSchema(SMALL) && FieldOf(SMALL, 2) == Some(OCTET)
  {
    assert UsableDef(OCTET);
  }

  lemma Write2Means(b: byte, t: map<nat, Tree>)
    ensures Edits.LooseEdits(SMALL, Write2(b)) && Edits.OverriddenAll(SMALL, t, Write2(b)) == t[2 := Octet(b)]
  {
    var es := Write2(b);
    SmallUsable();
    assert es[..0] == [];
    assert Edits.OverriddenAll(SMALL, t, es[..0]) == t;
    assert Edits.Overridden(SMALL, t, es[0]) == Edits.Written(SMALL, t, [2], InBytes([b]));
    assert MakeValue(OCTET, InBytes([b])) == Ok(Value(Scalar(KBytes, [b], NO_AMOUNT), None));
    assert Padded([b], OCTET.layout, 0, false) == [b];
  }

  lemma Write2Is(m: Msg, b: byte)
    requires m.schema == SMALL && |m.slots| == 3 && !m.sealed
    ensures var m' := Edits.ApplyAll(m, Write2(b));
            && |m'.slots| == 3 && m'.slots[..2] == m.slots[..2]
            && m'.slots[2].v == Value(Scalar(KBytes, [b], NO_AMOUNT), None) && !m'.slots[2].fromSrc
  {
    var es := Write2(b);
    SmallUsable();
    assert es[..0] == [];
    assert Edits.ApplyAll(m, es[..0]) == m;
  }

  /** Element 2 set to one octet: the message is finished. */
  lemma Write2Finished(m: Msg, b: byte)
    requires Loose(SMALL, m) && !m.sealed
    ensures Edits.Finished(SMALL, Edits.ApplyAll(m, Write2(b)))
  {
    Write2Is(m, b);
    SmallUsable();
    var m' := Edits.ApplyAll(m, Write2(b));
    forall i | 0 <= i < |m'.slots| ensures ElementFits(SMALL, m', i) {
      if i < 2 {
        assert m'.slots[i] == m'.slots[..2][i] == m.slots[i];
        assert LooseElement(SMALL, m, i);
      }
    }
  }

  lemma Write2Delivers(m: Msg, b: byte)
    requires Loose(SMALL, m) && !m.sealed
    ensures var m' := Edits.ApplyAll(m, Write2(b)); var w := MarshalSpec(SMALL, m');
            && Coherent(SMALL, m') && m'.src == m.src && View(SMALL, m') == View(SMALL, m)[2 := Octet(b)]
            && w.Ok? && UnmarshalSpec(SMALL, w.value).Ok?
            && View(SMALL, UnmarshalSpec(SMALL, w.value).value) == View(SMALL, m)[2 := Octet(b)]
  {
    SmallUsable();
    Write2Finished(m, b);
    Write2Means(b, View(SMALL, m));
    Edits.EditsSound(SMALL, m, Write2(b));
    Edits.FinishedDelivers(SMALL, m, Write2(b));
  }

  /** Element 2 decoded as one octet, then set to another: the copy sends the first. */
  lemma CloneDropsAnEdit() returns (s: Schema, w: seq<byte>, es: seq<Edits.Edit>)
    ensures UsableSchema(s) && UnmarshalSpec(s, w).Ok? && Edits.LooseEdits(s, es)
    ensures var m := Edits.ApplyAll(UnmarshalSpec(s, w).value, es);
            Coherent(s, m) && MarshalSpec(s, m).Ok? && MarshalSpec(s, Clone(m)) == Ok(w) != MarshalSpec(s, m)
  {
    s, es := SMALL, Write2(9);
    SmallUsable();
    Edits.NewLoose(s);
    Write2Delivers(New(s), 7);
    w := MarshalSpec(s, Edits.ApplyAll(New(s), Write2(7))).value;
    var m0 := UnmarshalSpec(s, w).value;
    Edits.DecodedLoose(s, w);
    Write2Delivers(m0, 9);
    Write2Means(9, map[]);
    var m := Edits.ApplyAll(m0, es);
    assert View(s, m0)[2] == Octet(7) && View(s, m)[2] == Octet(9);
    CloneSendsSource(s, m);
    CloneDropsEdits(s, m);
  }
}
