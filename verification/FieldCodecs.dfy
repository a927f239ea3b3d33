/** Scalar value codecs (fieldcodec/char.go, numeric.go, amount.go, hex.go) and the
    padding they share (fieldcodec/fieldcodec.go). */
module FieldCodecs {
  import opened Wrappers
  import opened Numerals
  import opened Decimals
  import Bcd
  import Hex
  import LengthCodecs

  datatype Kind = KInvalid | KString | KNumeric | KBytes | KAmount | KComposite

  /** A value without children: kind, canonical octets and decoded amount. */
  datatype Scalar = Scalar(kind: Kind, raw: seq<byte>, dec: Decimal)

  const NO_AMOUNT: Decimal := Decimal(0, 0)

  /** What a codec reads of a field definition. */
  datatype Layout = Layout(length: Option<LengthCodecs.LengthCodec>, maxLen: nat, scale: uint8)

  datatype Codec = Text | Raw | NumAscii | BcdNum | RbcdNum | BinNum | HexBin | AmtAscii | AmtBcd | AmtBin

  datatype Error = TooLong | NonDigit | Negative | BadHex | NotNumeric | WrongKind | BadBcd(Bcd.Error) | BadAmount(Decimals.Error)

  const SPACE: byte := 32
  const ZERO: byte := 48

  predicate IsFixed(l: Layout) { l.length.None? && l.maxLen > 0 }

  function Pad(b: seq<byte>, n: nat, pad: byte, left: bool): (r: seq<byte>)
    requires |b| <= n
    ensures |r| == n
  {
    if left then Repeat(pad, n - |b|) + b else b + Repeat(pad, n - |b|)
  }

  function PadSpec(b: seq<byte>, l: Layout, pad: byte, left: bool): (r: Result<seq<byte>, Error>)
  {
    if !IsFixed(l) then Ok(b)
    else if |b| > l.maxLen then Err(TooLong)
    else Ok(Pad(b, l.maxLen, pad, left))
  }

  function DigitCount(units: nat, l: Layout): nat
  {
    if units > 0 then units else l.maxLen
  }

  // ----- typed reads of a value (iso8583/value.go) -----

  function UintOf(v: Scalar): (r: Result<nat, Error>)
    ensures r.Ok? ==> r.value < TWO64
  {
    if !(v.kind.KNumeric? || v.kind.KString?) then Err(NotNumeric)
    else if v.raw == [] || !AllDigits(v.raw) || Atoi(v.raw) >= TWO64 then Err(NotNumeric)
    else Ok(Atoi(v.raw))
  }

  function DecimalOf(v: Scalar): (r: Result<Decimal, Error>)
  {
    if v.kind.KAmount? then Ok(v.dec)
    else if v.kind.KNumeric? then
      if v.raw == [] then Err(NotNumeric) else
        var n := ParseInt(v.raw);
        if n.Err? then Err(BadAmount(n.error)) else Ok(Decimal(n.value, 0))
    else Err(WrongKind)
  }

  /** The unsigned minor units of an amount at the field's scale. */
  function AmountUnits(v: Scalar, l: Layout): (r: Result<nat, Error>)
    ensures r.Ok? ==> r.value <= MAX64
  {
    var d :- DecimalOf(v);
    var e := Rescale(d, l.scale);
    if e.Err? then Err(BadAmount(e.error))
    else if e.value.unscaled < 0 then Err(Negative)
    else Ok(e.value.unscaled)
  }

  // ----- the codecs -----

  function Width(l: Layout): nat { if l.maxLen == 0 then 8 else l.maxLen }

  function Encode(c: Codec, v: Scalar, l: Layout): (r: Result<seq<byte>, Error>)
  {
    match c
    case Text => PadSpec(v.raw, l, SPACE, false)
    case Raw => PadSpec(v.raw, l, 0, false)
    case NumAscii => PadSpec(v.raw, l, ZERO, true)
    case BcdNum => (var d :- PadSpec(v.raw, l, ZERO, true); EncodePacked(d, false))
    case RbcdNum => (var d :- PadSpec(v.raw, l, ZERO, true); EncodePacked(d, true))
    case BinNum => (var n :- UintOf(v); Ok(ToBE(n, Width(l))))
    case HexBin => (var o :- PadSpec(v.raw, l, 0, false); Ok(Hex.HexOf(o)))
    case AmtAscii => (var n :- AmountUnits(v, l); PadSpec(Itoa(n), l, ZERO, true))
    case AmtBcd => (var n :- AmountUnits(v, l); var d :- PadSpec(Itoa(n), l, ZERO, true); EncodePacked(d, false))
    case AmtBin => (var n :- AmountUnits(v, l); Ok(ToBE(n, Width(l))))
  }

  function EncodePacked(d: seq<byte>, right: bool): (r: Result<seq<byte>, Error>)
  {
    var p := Bcd.PackSpec(d, right);
    if p.Err? then Err(NonDigit) else Ok(p.value)
  }

  function DecodePacked(body: seq<byte>, n: nat, right: bool): (r: Result<seq<byte>, Error>)
  {
    var d := Bcd.UnpackSpec(body, n, right);
    if d.Err? then Err(BadBcd(d.error)) else Ok(d.value)
  }

  function DecodeAmount(digits: seq<byte>, l: Layout): (r: Result<Scalar, Error>)
  {
    var n := ParseInt(digits);
    if n.Err? then Err(NonDigit) else Ok(Scalar(KAmount, digits, Decimal(n.value, l.scale)))
  }

  function Decode(c: Codec, body: seq<byte>, units: nat, l: Layout): (r: Result<Scalar, Error>)
  {
    match c
    case Text => Ok(Scalar(KString, body, NO_AMOUNT))
    case Raw => Ok(Scalar(KBytes, body, NO_AMOUNT))
    case NumAscii => Ok(Scalar(KNumeric, body, NO_AMOUNT))
    case BcdNum => (var d :- DecodePacked(body, DigitCount(units, l), false); Ok(Scalar(KNumeric, d, NO_AMOUNT)))
    case RbcdNum => (var d :- DecodePacked(body, DigitCount(units, l), true); Ok(Scalar(KNumeric, d, NO_AMOUNT)))
    case BinNum => Ok(Scalar(KNumeric, Itoa(FromBE(body) % TWO64), NO_AMOUNT))
    case HexBin =>
      (var o := Hex.FromHex(body);
      if o.None? then Err(BadHex) else Ok(Scalar(KBytes, o.value, NO_AMOUNT)))
    case AmtAscii => DecodeAmount(body, l)
    case AmtBcd => (var d :- DecodePacked(body, DigitCount(units, l), false); DecodeAmount(d, l))
    case AmtBin => Ok(Scalar(KAmount, body, Decimal(Wrap64(FromBE(body) % TWO64), l.scale)))
  }

  /** The wire octets `units` logical units occupy (the optional WidthCodec). */
  function BodyBytes(c: Codec, units: nat): nat
  {
    match c
    case BcdNum | RbcdNum | AmtBcd => Bcd.PackedLen(units)
    case HexBin => 2 * units
    case _ => units
  }

  /** The unit count written into a length prefix (iso8583/codec.go, encodeUnits). */
  function EncodeUnits(v: Scalar, l: Layout, body: seq<byte>): nat
  {
    match v.kind
    case KNumeric | KString | KBytes => |v.raw|
    case KAmount => if |v.raw| > 0 then |v.raw| else l.maxLen
    case _ => |body|
  }

  // ----- what survives a trip over the wire -----

  predicate IsNumberCodec(c: Codec) { c.BinNum? || c.AmtAscii? || c.AmtBcd? || c.AmtBin? }

  /** A usable field: fixed fields have a width, and the codecs whose wire width does
      not follow the value's length appear on fixed fields only. */
  predicate WellFormed(c: Codec, l: Layout)
  {
    && (l.length.None? ==> l.maxLen > 0)
    && (l.length.Some? && l.length.value.VarLen? ==> l.length.value.width >= 1)
    && (IsNumberCodec(c) ==> l.length.None?)
  }

  predicate CountsRaw(v: Scalar)
  {
    v.kind.KNumeric? || v.kind.KString? || v.kind.KBytes? || (v.kind.KAmount? && v.raw != [])
  }

  /** The octets of v as the field carries them: padded when fixed. */
  predicate RoomFor(n: nat, l: Layout)
  {
    match l.length
    case None => n <= l.maxLen
    case Some(lc) => LengthCodecs.Carries(lc, l.maxLen, n)
  }

  /** The values a field carries faithfully; a caller can test this before Set. */
  predicate Fits(c: Codec, v: Scalar, l: Layout)
  {
    match c
    case Text | Raw | NumAscii | HexBin => RoomFor(|v.raw|, l)
    case BcdNum | RbcdNum =>
      AllDigits(v.raw) && RoomFor(|v.raw|, l) && (l.length.Some? && l.maxLen > 0 ==> v.raw != [])
    case BinNum => UintOf(v).Ok? && UintOf(v).value < Pow(256, l.maxLen)
    case AmtAscii | AmtBcd => AmountUnits(v, l).Ok? && |Itoa(AmountUnits(v, l).value)| <= l.maxLen
    case AmtBin => AmountUnits(v, l).Ok? && AmountUnits(v, l).value < Pow(256, l.maxLen)
  }

  function Padded(b: seq<byte>, l: Layout, pad: byte, left: bool): (r: seq<byte>)
  {
    if IsFixed(l) && |b| <= l.maxLen then Pad(b, l.maxLen, pad, left) else b
  }

  /** What a faithful field decodes to: the same value in canonical, padded form. */
  function Canonical(c: Codec, v: Scalar, l: Layout): (r: Scalar)
  {
    match c
    case Text => Scalar(KString, Padded(v.raw, l, SPACE, false), NO_AMOUNT)
    case Raw | HexBin => Scalar(KBytes, Padded(v.raw, l, 0, false), NO_AMOUNT)
    case NumAscii | BcdNum | RbcdNum => Scalar(KNumeric, Padded(v.raw, l, ZERO, true), NO_AMOUNT)
    case BinNum => (var n := UintOf(v); Scalar(KNumeric, if n.Ok? then Itoa(n.value) else [], NO_AMOUNT))
    case AmtAscii | AmtBcd =>
      (var n := AmountUnits(v, l);
      if n.Err? then v else Scalar(KAmount, Padded(Itoa(n.value), l, ZERO, true), Decimal(n.value, l.scale)))
    case AmtBin =>
      var n := AmountUnits(v, l);
      if n.Err? then v else Scalar(KAmount, ToBE(n.value, Width(l)), Decimal(n.value, l.scale))
  }

  /** Units as the receiver will learn them. */
  function Units(v: Scalar, l: Layout, body: seq<byte>): nat
  {
    if l.length.None? then l.maxLen else EncodeUnits(v, l, body)
  }

  /** Encoding succeeds, the prefix can carry the count, the count gives back the body's
      width, and decoding yields the canonical value. */
  ghost predicate RoundTrips(c: Codec, v: Scalar, l: Layout)
  {
    var e := Encode(c, v, l);
    && e.Ok?
    && var units := Units(v, l, e.value);
    && (l.length.Some? ==> LengthCodecs.Carries(l.length.value, l.maxLen, units))
    && |e.value| == BodyBytes(c, units)
    && Decode(c, e.value, units, l) == Ok(Canonical(c, v, l))
  }

  lemma PlainRoundTrip(c: Codec, v: Scalar, l: Layout)
    requires WellFormed(c, l) && (l.length.Some? ==> CountsRaw(v)) && (c.Text? || c.Raw? || c.NumAscii? || c.HexBin?)
    ensures RoundTrips(c, v, l) <==> Fits(c, v, l)
  {
    if c.HexBin? && Fits(c, v, l) {
      Hex.HexRoundTrip(PadSpec(v.raw, l, 0, false).value);
    }
  }

  lemma PackedRoundTrip(c: Codec, v: Scalar, l: Layout)
    requires WellFormed(c, l) && (l.length.Some? ==> CountsRaw(v)) && (c.BcdNum? || c.RbcdNum?)
    ensures RoundTrips(c, v, l) <==> Fits(c, v, l)
  {
    var p := PadSpec(v.raw, l, ZERO, true);
    if p.Ok? {
      if !AllDigits(v.raw) {
        var i :| 0 <= i < |v.raw| && !IsDigit(v.raw[i]);
        assert p.value[|p.value| - |v.raw| + i] == v.raw[i];
      } else {
        assert AllDigits(p.value);
        Bcd.PackRoundTrip(p.value, c.RbcdNum?);
      }
    }
  }

  lemma {:induction false} ItoaInjective(m: nat, n: nat)
    requires Itoa(m) == Itoa(n)
    ensures m == n
  {
    AtoiItoa(m);
    AtoiItoa(n);
  }

  lemma OctetsDenote(n: nat, w: nat)
    ensures FromBE(ToBE(n, w)) == n <==> n < Pow(256, w)
  {
    if n < Pow(256, w) {
      FromBEToBE(n, w);
    } else {
      ToBEFromBE(ToBE(n, w));
    }
  }

  lemma {:induction false} ToBEBelow(n: nat, w: nat)
    ensures FromBE(ToBE(n, w)) <= n
  {
    if w > 0 {
      ToBEBelow(n / 256, w - 1);
      assert ToBE(n, w)[..w - 1] == ToBE(n / 256, w - 1);
    }
  }

  lemma BinaryRoundTrip(c: Codec, v: Scalar, l: Layout)
    requires WellFormed(c, l) && c.BinNum?
    ensures RoundTrips(c, v, l) <==> Fits(c, v, l)
  {
    if UintOf(v).Ok? {
      var n := UintOf(v).value;
      NumberBack(n, l.maxLen);
      var m := FromBE(ToBE(n, l.maxLen));
      if Itoa(m) == Itoa(n) { ItoaInjective(m, n); }
    }
  }

  /** The octets of a 64-bit number denote it exactly when it fits them. */
  lemma NumberBack(n: nat, w: nat)
    requires n < TWO64
    ensures var m := FromBE(ToBE(n, w)); m % TWO64 == m && (m == n <==> n < Pow(256, w))
  {
    OctetsDenote(n, w);
    ToBEBelow(n, w);
  }

  lemma DigitsParse(n: nat, w: nat)
    requires n <= MAX64 && |Itoa(n)| <= w
    ensures var s := Pad(Itoa(n), w, ZERO, true); AllDigits(s) && ParseInt(s) == Ok(n)
  {
    AtoiItoa(n);
    AtoiPadded(w - |Itoa(n)|, Itoa(n));
    var s := Pad(Itoa(n), w, ZERO, true);
    assert IsDigit(s[0]);
  }

  lemma AmountRoundTrip(c: Codec, v: Scalar, l: Layout)
    requires WellFormed(c, l) && (c.AmtAscii? || c.AmtBcd?)
    ensures RoundTrips(c, v, l) <==> Fits(c, v, l)
  {
    if AmountUnits(v, l).Ok? {
      var n := AmountUnits(v, l).value;
      if |Itoa(n)| <= l.maxLen { AmountFits(c, v, l, n); }
    }
  }

  lemma AmountFits(c: Codec, v: Scalar, l: Layout, n: nat)
    requires WellFormed(c, l) && (c.AmtAscii? || c.AmtBcd?) && AmountUnits(v, l) == Ok(n) && |Itoa(n)| <= l.maxLen
    ensures RoundTrips(c, v, l)
  {
    var digits := Pad(Itoa(n), l.maxLen, ZERO, true);
    DigitsParse(n, l.maxLen);
    assert PadSpec(Itoa(n), l, ZERO, true) == Ok(digits);
    if c.AmtBcd? { Bcd.PackRoundTrip(digits, false); }
  }

  lemma AmountBinaryRoundTrip(c: Codec, v: Scalar, l: Layout)
    requires WellFormed(c, l) && c.AmtBin?
    ensures RoundTrips(c, v, l) <==> Fits(c, v, l)
  {
    if AmountUnits(v, l).Ok? {
      var n := AmountUnits(v, l).value;
      NumberBack(n, l.maxLen);
      WrapCongruent(FromBE(ToBE(n, l.maxLen)));
    }
  }

  /** On every usable field, a value survives the wire exactly when it fits. */
  lemma ScalarRoundTrip(c: Codec, v: Scalar, l: Layout)
    requires WellFormed(c, l) && (l.length.Some? ==> CountsRaw(v))
    ensures RoundTrips(c, v, l) <==> Fits(c, v, l)
  {
    match c
    case Text | Raw | NumAscii | HexBin => PlainRoundTrip(c, v, l);
    case BcdNum | RbcdNum => PackedRoundTrip(c, v, l);
    case BinNum => BinaryRoundTrip(c, v, l);
    case AmtAscii | AmtBcd => AmountRoundTrip(c, v, l);
    case AmtBin => AmountBinaryRoundTrip(c, v, l);
  }

  // ----- the loops of the source, proved against the functions above -----

  method PadFixed(b: seq<byte>, l: Layout, pad: byte, left: bool) returns (r: Result<seq<byte>, Error>)
    ensures r == PadSpec(b, l, pad, left)
  {
    if !IsFixed(l) { return Ok(b); }
    if |b| > l.maxLen { return Err(TooLong); }
    if |b| == l.maxLen { assert Pad(b, l.maxLen, pad, left) == b; return Ok(b); }
    var out := new byte[l.maxLen];
    var gap := l.maxLen - |b|;
    if left {
      for i := 0 to gap
        invariant forall j :: 0 <= j < i ==> out[j] == pad
      {
        out[i] := pad;
      }
      for i := 0 to |b|
        invariant forall j :: 0 <= j < gap ==> out[j] == pad
        invariant forall j :: 0 <= j < i ==> out[gap + j] == b[j]
      {
        out[gap + i] := b[i];
      }
    } else {
      for i := 0 to |b|
        invariant forall j :: 0 <= j < i ==> out[j] == b[j]
      {
        out[i] := b[i];
      }
      for i := |b| to l.maxLen
        invariant forall j :: 0 <= j < |b| ==> out[j] == b[j]
        invariant forall j :: |b| <= j < i ==> out[j] == pad
      {
        out[i] := pad;
      }
    }
    assert out[..] == Pad(b, l.maxLen, pad, left);
    return Ok(out[..]);
  }

  /** binNum and amountBinary EncodeBody: the low `width` octets, last octet first. */
  method PutBinary(value: nat, width: nat) returns (s: seq<byte>)
    ensures s == ToBE(value, width)
  {
    var buf := new byte[width];
    var n, i := value, width - 1;
    while i >= 0
      invariant -1 <= i < width
      invariant n >= 0 && ToBE(value, width) == ToBE(n, i + 1) + buf[i + 1..]
    {
      buf[i] := n % 256;
      n := n / 256;
      i := i - 1;
    }
    return buf[..];
  }
}
