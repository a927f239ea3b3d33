/** Message.Bitmap (iso8583/message.go): after any decode, build and edits the bitmap a
    message reports names exactly the elements it holds. */
module Presence {
  import opened Wrappers
  import opened Numerals
  import opened Engine
  import opened Messages
  import opened Edits
  import FieldCodecs
  import BM = Bitmaps

  predicate Held(slots: seq<Slot>, de: int) { 0 <= de < |slots| && slots[de].present }

  /** Elements the wire can name: 1 and 65 are continuation bits. */
  predicate Nameable(de: int) { 2 <= de <= BM.MAX_DE && de != BM.CONT_TERTIARY }

  ghost predicate Tracks(m: Msg)
  {
    forall de :: Nameable(de) ==> (BM.IsSet(m.bm, de) <==> Held(m.slots, de))
  }

  lemma {:induction false} FieldsHeld(s: Schema, w: seq<byte>, off: nat, des: seq<nat>, slots: seq<Slot>, de: nat)
    requires |slots| == |s.defs| && ParseFields(s, w, off, des, slots).Ok? && de > 0
    ensures Held(ParseFields(s, w, off, des, slots).value.slots, de) <==> Held(slots, de) || de in des
    decreases |des|
  {
    if des != [] {
      var before, last := des[..|des| - 1], des[|des| - 1];
      FieldsHeld(s, w, off, before, slots, de);
      assert des == before + [last];
      assert de in des <==> de in before || de == last;
    }
  }

  lemma DecodedTracks(s: Schema, w: seq<byte>)
    requires UnmarshalSpec(s, w).Ok?
    ensures Tracks(UnmarshalSpec(s, w).value)
  {
    var m := UnmarshalSpec(s, w).value;
    var mti := ParseMti(s, w).value;
    var read := BM.ReadSpec(s.repr, w, mti.off, s.levels).value;
    var named := BM.Present(read.bm);
    BM.BelowIsSorted(named, BM.MAX_DE + 1);
    forall de | Nameable(de) ensures BM.IsSet(m.bm, de) <==> Held(m.slots, de) {
      FieldsHeld(s, w, read.next, BM.Below(named, BM.MAX_DE + 1), mti.slots, de);
      assert BM.IsSet(read.bm, de) <==> de in named;
    }
  }

  /** Bitmap and slots changed at one element only, and together. */
  lemma OneBit(m: Msg, m': Msg, de: nat)
    requires Tracks(m) && InRange(m, de) && |m'.slots| == |m.slots|
    requires forall i :: 0 <= i < |m.slots| && i != de ==> m'.slots[i].present == m.slots[i].present
    requires forall i :: BM.IsSet(m'.bm, i) == if i == de && Nameable(de) then m'.slots[de].present else BM.IsSet(m.bm, i)
    ensures Tracks(m')
  {
    forall i | Nameable(i) ensures BM.IsSet(m'.bm, i) <==> Held(m'.slots, i) {
      assert BM.IsSet(m.bm, i) <==> Held(m.slots, i);
    }
  }

  lemma StoreTracks(m: Msg, de: nat, v: Value)
    requires Tracks(m) && InRange(m, de)
    ensures Tracks(Store(m, de, v))
  {
    if Nameable(de) {
      OneBit(m, Store(m, de, v), de);
    } else {
      var m' := Store(m, de, v);
      forall i | Nameable(i) ensures BM.IsSet(m'.bm, i) <==> Held(m'.slots, i) {
        assert BM.IsSet(m.bm, i) <==> Held(m.slots, i);
      }
    }
  }

  lemma PathTracks(m: Msg, path: seq<nat>, x: Input)
    requires Tracks(m)
    ensures Tracks(SetPathSpec(m, path, x).m)
  {
    if !m.sealed && |path| > 1 && FieldOf(m.schema, path[0]).Some? && FieldOf(m.schema, path[0]).value.codec.Subfield?
       && InRange(m, path[0]) {
      var de, sub := path[0], FieldOf(m.schema, path[0]).value.codec.sub;
      var p := EnsureChildSpec(m, de, sub).1;
      ParentTracks(m, de, sub);
      var e := SetPathSpec(EnsureChildSpec(m, de, sub).0, path[1..], x);
      SamePresence(p, PutChild(p, de, e.m));
    } else if !m.sealed && |path| == 1 {
      WriteTracks(m, path[0], x);
    }
  }

  lemma SamePresence(m: Msg, m': Msg)
    requires Tracks(m) && m'.bm == m.bm && |m'.slots| == |m.slots|
    requires forall i :: 0 <= i < |m.slots| ==> m'.slots[i].present == m.slots[i].present
    ensures Tracks(m')
  {
    forall i | Nameable(i) ensures BM.IsSet(m'.bm, i) <==> Held(m'.slots, i) {
      assert BM.IsSet(m.bm, i) <==> Held(m.slots, i);
    }
  }

  lemma ReadTracks(m: Msg, de: int)
    requires Tracks(m)
    ensures Tracks(GetSpec(m, de).m)
  {
    SamePresence(m, GetSpec(m, de).m);
  }

  lemma ParentTracks(m: Msg, de: nat, sub: Schema)
    requires Tracks(m) && InRange(m, de)
    ensures Tracks(EnsureChildSpec(m, de, sub).1)
  {
    ReadTracks(m, de);
    var g := if m.slots[de].present then DecodeSlotSpec(m, de) else Got(None, m);
    if g.v.Some? && g.v.value.s.kind.KComposite? && g.v.value.sub.Some? {
      SamePresence(g.m, EnsureChildSpec(m, de, sub).1);
    } else {
      StoreTracks(g.m, de, Value(FieldCodecs.Scalar(FieldCodecs.KComposite, [], FieldCodecs.NO_AMOUNT), Some(New(sub))));
    }
  }

  lemma WriteTracks(m: Msg, de: int, x: Input)
    requires Tracks(m)
    ensures Tracks(SetSpec(m, de, x).m)
  {
    if SetSpec(m, de, x).err.None? {
      StoreTracks(m, de, MakeValue(FieldOf(m.schema, de).value, x).value);
    }
  }

  lemma RemoveTracks(m: Msg, de: int)
    requires Tracks(m)
    ensures Tracks(UnsetSpec(m, de))
  {
    if UnsetSpec(m, de) != m {
      if Nameable(de) {
        OneBit(m, UnsetSpec(m, de), de);
      } else {
        var m' := UnsetSpec(m, de);
        forall i | Nameable(i) ensures BM.IsSet(m'.bm, i) <==> Held(m'.slots, i) {
          assert BM.IsSet(m.bm, i) <==> Held(m.slots, i);
        }
      }
    }
  }

  lemma EditTracks(m: Msg, e: Edit)
    requires Tracks(m)
    ensures Tracks(Apply(m, e))
  {
    match e
    case Read(de) => ReadTracks(m, de);
    case Write(de, x) => WriteTracks(m, de, x);
    case WritePath(path, x) => PathTracks(m, path, x);
    case Remove(de) => RemoveTracks(m, de);
  }

  lemma {:induction false} EditsTrack(m: Msg, es: seq<Edit>)
    requires Tracks(m)
    ensures Tracks(ApplyAll(m, es))
  {
    if es != [] {
      EditsTrack(m, es[..|es| - 1]);
      EditTracks(ApplyAll(m, es[..|es| - 1]), es[|es| - 1]);
    }
  }

  /** From a decoded or an empty message, through any edits at all. */
  lemma BitmapNamesWhatIsHeld(s: Schema, w: seq<byte>, es: seq<Edit>)
    ensures Tracks(ApplyAll(New(s), es))
    ensures UnmarshalSpec(s, w).Ok? ==> Tracks(ApplyAll(UnmarshalSpec(s, w).value, es))
  {
    assert Tracks(New(s));
    EditsTrack(New(s), es);
    if UnmarshalSpec(s, w).Ok? {
      DecodedTracks(s, w);
      EditsTrack(UnmarshalSpec(s, w).value, es);
    }
  }
}
