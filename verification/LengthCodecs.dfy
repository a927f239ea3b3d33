/** Length prefixes (lengthcodec/length.go): a logical unit count written as ASCII
    digits, packed digits or raw octets. */
module LengthCodecs {
  import opened Wrappers
  import opened Numerals
  import Bcd

  datatype Repr = Ascii | PackedBcd | Binary

  /** `Fixed` writes no prefix; a variable prefix has `width` digits, or octets when binary. */
  datatype LengthCodec = Fixed | VarLen(width: nat, repr: Repr)

  datatype Error = Truncated | Overflow | BadDigit | BcdError(Bcd.Error)

  datatype Prefix = Prefix(units: nat, next: nat)

  function AtoiSpec(b: seq<byte>): (r: Result<nat, Error>)
  {
    if AllDigits(b) then Ok(Atoi(b)) else Err(BadDigit)
  }

  function PadSpec(n: nat, width: nat): (r: Result<seq<byte>, Error>)
  {
    var s := Itoa(n);
    if |s| > width then Err(Overflow) else Ok(Repeat(48, width - |s|) + s)
  }

  function PrefixBytes(lc: LengthCodec): nat
  {
    match lc
    case Fixed => 0
    case VarLen(w, PackedBcd) => Bcd.PackedLen(w)
    case VarLen(w, _) => w
  }

  function ReadLen(lc: LengthCodec, maxLen: nat, src: seq<byte>, off: nat): (r: Result<Prefix, Error>)
  {
    if lc.Fixed? then Ok(Prefix(maxLen, off)) else
      var nb := PrefixBytes(lc);
      if off + nb > |src| then Err(Truncated) else
        var p := src[off..off + nb];
        match lc.repr
        case Ascii => (var n :- AtoiSpec(p); Ok(Prefix(n, off + nb)))
        case PackedBcd =>
          (var digits := Bcd.UnpackSpec(p, lc.width, false);
          if digits.Err? then Err(BcdError(digits.error)) else
            var n :- AtoiSpec(digits.value); Ok(Prefix(n, off + nb)))
        case Binary => Ok(Prefix(FromBE(p), off + nb))
  }

  /** The prefix octets for a unit count. */
  function WriteLen(lc: LengthCodec, units: nat): (r: Result<seq<byte>, Error>)
  {
    match lc
    case Fixed => Ok([])
    case VarLen(w, Ascii) => PadSpec(units, w)
    case VarLen(w, PackedBcd) =>
      (var s :- PadSpec(units, w);
      var p := Bcd.PackSpec(s, false);
      if p.Err? then Err(BcdError(p.error)) else Ok(p.value))
    case VarLen(w, Binary) => if units >= Pow(256, w) then Err(Overflow) else Ok(ToBE(units, w))
  }

  /** The unit counts a prefix can carry. */
  predicate Carries(lc: LengthCodec, maxLen: nat, units: nat)
  {
    match lc
    case Fixed => units == maxLen
    case VarLen(w, Binary) => units < Pow(256, w)
    case VarLen(w, _) => w >= 1 && units < Pow(10, w)
  }

  lemma PadDenotes(n: nat, width: nat)
    requires width >= 1
    ensures PadSpec(n, width).Ok? <==> n < Pow(10, width)
    ensures PadSpec(n, width).Ok? ==>
              var s := PadSpec(n, width).value; |s| == width && AllDigits(s) && Atoi(s) == n
  {
    ItoaWidth(n, width);
    if |Itoa(n)| <= width {
      AtoiItoa(n);
      AtoiPadded(width - |Itoa(n)|, Itoa(n));
    }
  }

  /** A prefix is written exactly for the counts it can carry, and reading it back,
      wherever it stands in a buffer, returns the count and the next offset. */
  lemma PrefixRoundTrip(lc: LengthCodec, maxLen: nat, units: nat, src: seq<byte>, off: nat)
    requires lc.VarLen? ==> lc.width >= 1
    ensures lc.VarLen? ==> (WriteLen(lc, units).Ok? <==> Carries(lc, maxLen, units))
    ensures var w := WriteLen(lc, units);
            Carries(lc, maxLen, units) && off + PrefixBytes(lc) <= |src|
            && w.Ok? && src[off..off + PrefixBytes(lc)] == w.value ==>
              ReadLen(lc, maxLen, src, off) == Ok(Prefix(units, off + PrefixBytes(lc)))
    ensures WriteLen(lc, units).Ok? ==> |WriteLen(lc, units).value| == PrefixBytes(lc)
  {
    if lc.VarLen? {
      WriteLenExact(lc, maxLen, units);
      if WriteLen(lc, units).Ok? && off + PrefixBytes(lc) <= |src| && src[off..off + PrefixBytes(lc)] == WriteLen(lc, units).value {
        WrittenReads(lc, maxLen, units, src, off);
      }
    }
  }

  lemma WriteLenExact(lc: LengthCodec, maxLen: nat, units: nat)
    requires lc.VarLen? && lc.width >= 1
    ensures WriteLen(lc, units).Ok? <==> Carries(lc, maxLen, units)
    ensures WriteLen(lc, units).Ok? ==> |WriteLen(lc, units).value| == PrefixBytes(lc)
  {
    if !lc.repr.Binary? {
      PadDenotes(units, lc.width);
      if lc.repr.PackedBcd? && PadSpec(units, lc.width).Ok? {
        Bcd.PackRoundTrip(PadSpec(units, lc.width).value, false);
      }
    }
  }

  lemma WrittenReads(lc: LengthCodec, maxLen: nat, units: nat, src: seq<byte>, off: nat)
    requires lc.VarLen? && lc.width >= 1 && Carries(lc, maxLen, units) && WriteLen(lc, units).Ok?
    requires off + PrefixBytes(lc) <= |src| && src[off..off + PrefixBytes(lc)] == WriteLen(lc, units).value
    ensures ReadLen(lc, maxLen, src, off) == Ok(Prefix(units, off + PrefixBytes(lc)))
  {
    if lc.repr.Binary? {
      FromBEToBE(units, lc.width);
    } else {
      PadDenotes(units, lc.width);
      if lc.repr.PackedBcd? { Bcd.PackRoundTrip(PadSpec(units, lc.width).value, false); }
    }
  }

  // ----- the loops of the source, proved against the functions above -----

  method AtoiDigits(b: seq<byte>) returns (r: Result<nat, Error>)
    ensures r == AtoiSpec(b)
  {
    var n: int := 0;
    for i := 0 to |b|
      invariant n >= 0 && AllDigits(b[..i]) && n == Atoi(b[..i])
    {
      if !IsDigit(b[i]) { return Err(BadDigit); }
      assert b[..i + 1][..i] == b[..i];
      n := n * 10 + (b[i] - 48);
    }
    assert b[..|b|] == b;
    return Ok(n);
  }

  method DecimalPad(n: nat, width: nat) returns (r: Result<seq<byte>, Error>)
    ensures r == PadSpec(n, width)
  {
    var s := Itoa(n);
    if |s| > width { return Err(Overflow); }
    var out := new byte[width];
    var gap := width - |s|;
    for i := 0 to gap
      invariant forall j :: 0 <= j < i ==> out[j] == 48
    {
      out[i] := 48;
    }
    for i := 0 to |s|
      invariant forall j :: 0 <= j < gap ==> out[j] == 48
      invariant forall j :: 0 <= j < i ==> out[gap + j] == s[j]
    {
      out[gap + i] := s[i];
    }
    assert out[..] == Repeat(48, gap) + s;
    return Ok(out[..]);
  }

  method ReadBinary(src: seq<byte>, off: nat, bytes: nat) returns (n: nat)
    requires off + bytes <= |src|
    ensures n == FromBE(src[off..off + bytes])
  {
    n := 0;
    for i := 0 to bytes
      invariant n == FromBE(src[off..off + i])
    {
      assert src[off..off + i + 1][..i] == src[off..off + i];
      n := n * 256 + src[off + i];
    }
  }
}
