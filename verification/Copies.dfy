/** What a receiver of a cloned message sees (iso8583/message.go): exactly when it is what
    the original means. */
module Copies {
  import opened Wrappers
  import opened FieldCodecs
  import opened Engine
  import opened Coherence
  import opened Delivery
  import opened Messages
  import Clones
  import LC = LengthCodecs

  /** Whoever decodes what the copy sends sees what the original means. */
  ghost predicate CopyMeans(s: Schema, m: Msg)
  {
    var w := MarshalSpec(s, Clone(m));
    w.Ok? && UnmarshalSpec(s, w.value).Ok? && View(s, UnmarshalSpec(s, w.value).value) == View(s, m)
  }

  /** A decoded message still means what its source says, however it was edited; a built
      one may hold anything, as long as the decoded composites in it do. */
  ghost predicate MeansSource(s: Schema, m: Msg)
    decreases s
  {
    if m.src.Some? then
      UnmarshalSpec(s, m.src.value).Ok? && View(s, m) == View(s, UnmarshalSpec(s, m.src.value).value)
    else
      forall i :: 0 <= i < |m.slots| && HoldsChild(s, m, i) ==> MeansSource(SubOf(s, i), m.slots[i].v.sub.value)
  }

  predicate HoldsChild(s: Schema, m: Msg, i: nat)
    requires i < |m.slots|
  {
    m.slots[i].present && FieldOf(s, i).Some? && FieldOf(s, i).value.codec.Subfield? && m.slots[i].v.sub.Some?
  }

  function SubOf(s: Schema, i: nat): (sub: Schema)
    requires FieldOf(s, i).Some? && FieldOf(s, i).value.codec.Subfield?
    ensures sub < s
  {
    FieldOf(s, i).value.codec.sub
  }

  /** In a built message, the octets a child's copy sends fit the child's field. */
  ghost predicate CopiesFit(s: Schema, m: Msg)
    decreases s
  {
    m.src.None? ==> forall i :: 0 <= i < |m.slots| && HoldsChild(s, m, i) ==>
      (var child := m.slots[i].v.sub.value; var w := MarshalSpec(SubOf(s, i), Clone(child));
      CopiesFit(SubOf(s, i), child) && (w.Ok? ==> Room(FieldOf(s, i).value.layout, |w.value|)))
  }

  /** A copied child in its field: a reader sees what it means exactly when its copy does. */
  lemma ChildArrives(def: FieldDef, sl: Slot)
    requires UsableDef(def) && def.codec.Subfield? && !sl.fromSrc && Carried(def, sl.v)
    requires var w := MarshalSpec(def.codec.sub, Clone(sl.v.sub.value)); w.Ok? && Room(def.layout, |w.value|)
    ensures var c := Chunk(def, CloneSlot(sl), None);
            c.Ok? && IsField(def, c.value)
            && (ViewField(def, c.value) == ViewSlot(def, sl, None) <==> CopyMeans(def.codec.sub, sl.v.sub.value))
  {
    var body := MarshalSpec(def.codec.sub, Clone(sl.v.sub.value)).value;
    var prefix := PrefixedComposite(def, body);
    CompositeChunkIs(def, CloneSlot(sl), None, body, prefix);
  }

  /** Element i of the copy, as a reader sees it. */
  ghost predicate Kept(s: Schema, m: Msg, i: nat)
    requires i < |m.slots|
  {
    HoldsChild(s, m, i) ==> MeansSource(SubOf(s, i), m.slots[i].v.sub.value)
  }

  ghost predicate ArrivesIffKept(s: Schema, m: Msg, i: nat)
  {
    && i < |m.slots| && Framed(s, Clone(m), i)
    && (Sent(s, Clone(m), i) == ViewSlot(FieldOf(s, i).value, m.slots[i], None) <==> Kept(s, m, i))
  }

  lemma ElementArrives(s: Schema, m: Msg, i: nat)
    requires UsableSchema(s) && Coherent(s, m) && m.src.None? && CopiesFit(s, m) && i < |m.slots| && m.slots[i].present
    ensures ArrivesIffKept(s, m, i)
    decreases s, 1
  {
    assert ElementSound(s, m, i);
    Clones.ClonedAt(m, i);
    var def, sl := FieldOf(s, i).value, m.slots[i];
    assert UsableDef(def) && SlotCoherent(def, sl, m.src) && Carried(def, sl.v);
    if def.codec.Subfield? {
      assert HoldsChild(s, m, i);
      FittingCopyMeansIff(def.codec.sub, sl.v.sub.value);
      ChildArrives(def, sl);
    } else {
      Clones.BuiltScalarClone(def, sl, m.src);
      ChunkTravels(def, sl, m.src);
    }
  }

  lemma BuiltCopy(s: Schema, m: Msg)
    requires UsableSchema(s) && Coherent(s, m) && m.src.None?
    requires forall i :: 0 <= i < |m.slots| && m.slots[i].present ==> ArrivesIffKept(s, m, i)
    ensures MarshalSpec(s, Clone(m)).Ok? && (CopyMeans(s, m) <==> MeansSource(s, m))
  {
    var m' := Clone(m);
    forall i | 0 <= i < |m'.slots| ensures m'.slots[i].present == m.slots[i].present {
      Clones.ClonedAt(m, i);
    }
    FramedParses(s, m');
    var w := MarshalSpec(s, m').value;
    var read := UnmarshalSpec(s, w).value;
    forall i | 0 <= i < |m.slots| ensures Arrived(s, m', w, i, read.slots[i]) {}
    SameIffEach(s, m, read);
  }

  /** The reader's view is the original's exactly when it is so element by element. */
  lemma SameIffEach(s: Schema, m: Msg, read: Msg)
    requires m.src.None? && |read.slots| == |m.slots| && read.src.Some? && AllFramed(s, Clone(m))
    requires forall i :: 0 <= i < |m.slots| && m.slots[i].present ==> ArrivesIffKept(s, m, i)
    requires forall i :: 0 <= i < |m.slots| ==> Arrived(s, Clone(m), read.src.value, i, read.slots[i])
    ensures View(s, read) == View(s, m) <==> MeansSource(s, m)
  {
    forall i | 0 <= i < |m.slots| && m.slots[i].present
      ensures FieldOf(s, i).Some? && read.slots[i].present && i in View(s, read) && i in View(s, m)
      ensures View(s, read)[i] == View(s, m)[i] <==> Kept(s, m, i)
    {
      ElementSame(s, m, read, i);
    }
    assert View(s, read).Keys == View(s, m).Keys by {
      forall i | 0 <= i < |m.slots| ensures read.slots[i].present == m.slots[i].present {
        assert Arrived(s, Clone(m), read.src.value, i, read.slots[i]);
        Clones.ClonedAt(m, i);
      }
    }
    SameIffKept(s, m, View(s, read), View(s, m));
  }

  lemma ElementSame(s: Schema, m: Msg, read: Msg, i: nat)
    requires m.src.None? && |read.slots| == |m.slots| && read.src.Some? && AllFramed(s, Clone(m))
    requires i < |m.slots| && m.slots[i].present && ArrivesIffKept(s, m, i)
    requires Arrived(s, Clone(m), read.src.value, i, read.slots[i])
    ensures FieldOf(s, i).Some? && read.slots[i].present && i in View(s, read) && i in View(s, m)
    ensures View(s, read)[i] == View(s, m)[i] <==> Kept(s, m, i)
  {
    Clones.ClonedAt(m, i);
  }

  lemma SameIffKept(s: Schema, m: Msg, a: map<nat, Tree>, b: map<nat, Tree>)
    requires m.src.None? && a.Keys == b.Keys
    requires forall i :: i in a ==> i < |m.slots| && m.slots[i].present
    requires forall i :: 0 <= i < |m.slots| && m.slots[i].present ==> i in a && (a[i] == b[i] <==> Kept(s, m, i))
    ensures a == b <==> MeansSource(s, m)
  {
    assert MeansSource(s, m) <==> forall i :: 0 <= i < |m.slots| ==> Kept(s, m, i);
    if a == b {
      forall i | 0 <= i < |m.slots| ensures Kept(s, m, i) {}
    }
  }

  /** Whose every copy fits: the copy delivers the meaning exactly when no decoded part of it
      has come to mean something else than its source. */
  lemma FittingCopyMeansIff(s: Schema, m: Msg)
    requires UsableSchema(s) && Coherent(s, m) && CopiesFit(s, m)
    ensures MarshalSpec(s, Clone(m)).Ok? && (CopyMeans(s, m) <==> MeansSource(s, m))
    decreases s, 2
  {
    if m.src.Some? {
      Clones.CloneSendsSource(s, m);
    } else {
      forall i | 0 <= i < |m.slots| && m.slots[i].present ensures ArrivesIffKept(s, m, i) {
        ElementArrives(s, m, i);
      }
      BuiltCopy(s, m);
    }
  }

  // ----- copies that do not fit -----

  predicate Prefixed(l: Layout) { l.length.Some? && l.length.value.VarLen? }

  /** What CopiesFit asks, asked of the fixed-width fields alone. */
  ghost predicate FixedCopiesFit(s: Schema, m: Msg)
    decreases s
  {
    m.src.None? ==> forall i :: 0 <= i < |m.slots| && HoldsChild(s, m, i) ==>
      (var child := m.slots[i].v.sub.value; var w := MarshalSpec(SubOf(s, i), Clone(child));
      && FixedCopiesFit(SubOf(s, i), child)
      && (w.Ok? && !Prefixed(FieldOf(s, i).value.layout) ==> Room(FieldOf(s, i).value.layout, |w.value|)))
  }

  lemma UnfitChunk(def: FieldDef, sl: Slot)
    requires UsableDef(def) && def.codec.Subfield? && !sl.fromSrc && sl.v.s.kind.KComposite? && sl.v.sub.Some?
    requires var w := MarshalSpec(def.codec.sub, Clone(sl.v.sub.value)); w.Err? || (Prefixed(def.layout) && !Room(def.layout, |w.value|))
    ensures Chunk(def, CloneSlot(sl), None).Err?
  {
    var w := MarshalSpec(def.codec.sub, Clone(sl.v.sub.value));
    if w.Ok? { LC.PrefixRoundTrip(def.layout.length.value, def.layout.maxLen, |w.value|, [], 0); }
  }

  lemma UnfitMarshal(s: Schema, m: Msg, i: nat)
    requires m.src.None? && i < |m.slots| && m.slots[i].present && FieldOf(s, i).Some?
    requires Chunk(FieldOf(s, i).value, CloneSlot(m.slots[i]), None).Err?
    ensures MarshalSpec(s, Clone(m)).Err?
  {
    Clones.ClonedAt(m, i);
    var slots := Clone(m).slots;
    if i > 0 { ChunksErrorIsFinal(s, slots, None, i + 1, |slots|); }
  }

  /** A copy that does not fit a field with a length prefix is refused by Marshal. */
  lemma UnfitRefused(s: Schema, m: Msg)
    requires UsableSchema(s) && Coherent(s, m) && FixedCopiesFit(s, m) && !CopiesFit(s, m)
    ensures MarshalSpec(s, Clone(m)).Err?
    decreases s
  {
    var i :| 0 <= i < |m.slots| && HoldsChild(s, m, i) && !(
      var child := m.slots[i].v.sub.value; var w := MarshalSpec(SubOf(s, i), Clone(child));
      CopiesFit(SubOf(s, i), child) && (w.Ok? ==> Room(FieldOf(s, i).value.layout, |w.value|)));
    assert ElementSound(s, m, i);
    var def, sl := FieldOf(s, i).value, m.slots[i];
    assert UsableDef(def) && SlotCoherent(def, sl, m.src) && Carried(def, sl.v);
    if !CopiesFit(def.codec.sub, sl.v.sub.value) { UnfitRefused(def.codec.sub, sl.v.sub.value); }
    UnfitChunk(def, sl);
    UnfitMarshal(s, m, i);
  }

  /** For every coherent message, whatever was edited in it: the copy delivers its meaning
      exactly when no decoded part of it has come to mean something else than its source,
      and the octets each child's copy sends fit the child's field. */
  lemma CopyMeansIff(s: Schema, m: Msg)
    requires UsableSchema(s) && Coherent(s, m) && FixedCopiesFit(s, m)
    ensures CopyMeans(s, m) <==> MeansSource(s, m) && CopiesFit(s, m)
  {
    if CopiesFit(s, m) { FittingCopyMeansIff(s, m); } else { UnfitRefused(s, m); }
  }
}
