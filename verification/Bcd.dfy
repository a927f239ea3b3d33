/** Packed decimal (internal/bcd/bcd.go): two digits an octet, with the pad nibble
    of an odd count in front (Pack) or behind (PackRight). */
module Bcd {
  import opened Wrappers
  import opened Numerals

  datatype Error = NonDigit | BadNibble | Short | NegCount

  function PackedLen(n: nat): nat { (n + 1) / 2 }

  /** The value of digit i; positions outside the digits are pad nibbles. */
  function Nibble(d: seq<byte>, i: int): (v: nat)
    requires AllDigits(d)
    ensures v <= 9
  {
    if 0 <= i < |d| then d[i] - 48 else 0
  }

  /** Digits packed behind `pad` leading zero nibbles. */
  function Packed(d: seq<byte>, pad: nat): (b: seq<byte>)
    requires AllDigits(d)
    ensures |b| == PackedLen(|d|)
  {
    seq(PackedLen(|d|), k => Nibble(d, 2 * k - pad) * 16 + Nibble(d, 2 * k + 1 - pad))
  }

  function NibbleAt(b: seq<byte>, j: nat): (v: nat)
    requires j < 2 * |b|
    ensures v < 16
  {
    if j % 2 == 0 then b[j / 2] / 16 else b[j / 2] % 16
  }

  predicate Unpackable(b: seq<byte>, n: nat, pad: nat)
    requires pad + n <= 2 * |b|
  {
    forall i :: pad <= i < pad + n ==> NibbleAt(b, i) <= 9
  }

  /** The n digits that follow `pad` nibbles of b. */
  function Unpacked(b: seq<byte>, n: nat, pad: nat): (d: seq<byte>)
    requires pad + n <= 2 * |b| && Unpackable(b, n, pad)
    ensures |d| == n && AllDigits(d)
  {
    seq(n, i requires 0 <= i < n => 48 + NibbleAt(b, pad + i))
  }

  function UnpackSpec(b: seq<byte>, n: int, right: bool): (r: Result<seq<byte>, Error>)
  {
    if n < 0 then Err(NegCount)
    else if PackedLen(n) > |b| then Err(Short)
    else
      var pad := if right then 0 else n % 2;
      if Unpackable(b, n, pad) then Ok(Unpacked(b, n, pad)) else Err(BadNibble)
  }

  function PackSpec(d: seq<byte>, right: bool): (r: Result<seq<byte>, Error>)
  {
    if AllDigits(d) then Ok(Packed(d, if right then 0 else |d| % 2)) else Err(NonDigit)
  }

  lemma NibblePlaced(d: seq<byte>, pad: nat, j: nat)
    requires AllDigits(d) && pad <= 1 && j < 2 * PackedLen(|d|)
    ensures NibbleAt(Packed(d, pad), j) == Nibble(d, j - pad)
  {
    var k := j / 2;
    assert Packed(d, pad)[k] == Nibble(d, 2 * k - pad) * 16 + Nibble(d, 2 * k + 1 - pad);
  }

  /** Unpacking what was packed returns the digits, odd counts and both alignments included. */
  lemma PackRoundTrip(d: seq<byte>, right: bool)
    requires AllDigits(d)
    ensures PackSpec(d, right).Ok? && |PackSpec(d, right).value| == PackedLen(|d|)
    ensures UnpackSpec(PackSpec(d, right).value, |d|, right) == Ok(d)
  {
    var pad := if right then 0 else |d| % 2;
    var b := Packed(d, pad);
    forall j | pad <= j < pad + |d|
      ensures NibbleAt(b, j) == d[j - pad] - 48
    {
      NibblePlaced(d, pad, j);
    }
    assert Unpackable(b, |d|, pad);
    assert Unpacked(b, |d|, pad) == d;
  }

  method Pack(digits: seq<byte>) returns (r: Result<seq<byte>, Error>)
    ensures r == PackSpec(digits, false)
  {
    var n := |digits|;
    var out := new byte[PackedLen(n)];
    var oi, di := 0, 0;
    if n % 2 == 1 {
      if !IsDigit(digits[0]) { return Err(NonDigit); }
      out[0] := digits[0] - 48;
      di, oi := 1, 1;
    }
    while di < n
      invariant 0 <= di <= n && di == 2 * oi - n % 2
      invariant AllDigits(digits[..di])
      invariant forall k :: 0 <= k < oi ==>
        out[k] == Nibble(digits[..di], 2 * k - n % 2) * 16 + Nibble(digits[..di], 2 * k + 1 - n % 2)
    {
      if !IsDigit(digits[di]) { return Err(NonDigit); }
      if !IsDigit(digits[di + 1]) { return Err(NonDigit); }
      out[oi] := (digits[di] - 48) * 16 + (digits[di + 1] - 48);
      assert AllDigits(digits[..di + 2]);
      di, oi := di + 2, oi + 1;
    }
    assert digits[..n] == digits;
    assert out[..] == Packed(digits, n % 2);
    return Ok(out[..]);
  }

  method PackRight(digits: seq<byte>) returns (r: Result<seq<byte>, Error>)
    ensures r == PackSpec(digits, true)
  {
    var n := |digits|;
    var out := new byte[PackedLen(n)];
    var oi, di := 0, 0;
    while di < n
      invariant 0 <= di && di == 2 * oi && di <= n + 1
      invariant forall i :: 0 <= i < n && i < di ==> IsDigit(digits[i])
      invariant forall k :: 0 <= k < oi ==>
        out[k] == (digits[2 * k] - 48) * 16 + (if 2 * k + 1 < n then digits[2 * k + 1] - 48 else 0)
    {
      if !IsDigit(digits[di]) { return Err(NonDigit); }
      var lo := 0;
      if di + 1 < n {
        if !IsDigit(digits[di + 1]) { return Err(NonDigit); }
        lo := digits[di + 1] - 48;
      }
      out[oi] := (digits[di] - 48) * 16 + lo;
      di, oi := di + 2, oi + 1;
    }
    assert out[..] == Packed(digits, 0);
    return Ok(out[..]);
  }

  method Unpack(b: seq<byte>, n: int) returns (r: Result<seq<byte>, Error>)
    ensures r == UnpackSpec(b, n, false)
  {
    if n < 0 { return Err(NegCount); }
    if PackedLen(n) > |b| { return Err(Short); }
    var out := new byte[n];
    var used, pad := PackedLen(n), n % 2;
    var oi, i := 0, 0;
    if n % 2 == 1 {
      var lo := b[0] % 16;
      if lo > 9 { assert NibbleAt(b, pad) > 9; return Err(BadNibble); }
      out[0] := 48 + lo;
      oi, i := 1, 1;
    }
    while i < used
      invariant pad <= i <= used && oi == 2 * i - pad
      invariant forall q :: pad <= q < pad + oi ==> NibbleAt(b, q) <= 9 && out[q - pad] == 48 + NibbleAt(b, q)
    {
      var hi, lo := b[i] / 16, b[i] % 16;
      NibblesOf(b, i);
      if hi > 9 || lo > 9 { return Err(BadNibble); }
      out[oi], out[oi + 1] := 48 + hi, 48 + lo;
      oi, i := oi + 2, i + 1;
    }
    DigitsAre(b, n, pad, out[..]);
    return Ok(out[..]);
  }

  lemma NibblesOf(b: seq<byte>, i: nat)
    requires i < |b|
    ensures NibbleAt(b, 2 * i) == b[i] / 16 && NibbleAt(b, 2 * i + 1) == b[i] % 16
  {
  }

  lemma DigitsAre(b: seq<byte>, n: nat, pad: nat, d: seq<byte>)
    requires pad + n <= 2 * |b| && |d| == n
    requires forall q :: pad <= q < pad + n ==> NibbleAt(b, q) <= 9 && d[q - pad] == 48 + NibbleAt(b, q)
    ensures Unpackable(b, n, pad) && d == Unpacked(b, n, pad)
  {
  }

  method UnpackRight(b: seq<byte>, n: int) returns (r: Result<seq<byte>, Error>)
    ensures r == UnpackSpec(b, n, true)
  {
    if n < 0 { return Err(NegCount); }
    if PackedLen(n) > |b| { return Err(Short); }
    var out := new byte[n];
    for i := 0 to n
      invariant forall j :: 0 <= j < i ==> NibbleAt(b, j) <= 9 && out[j] == 48 + NibbleAt(b, j)
    {
      var nib := if i % 2 == 0 then b[i / 2] / 16 else b[i / 2] % 16;
      assert nib == NibbleAt(b, i);
      if nib > 9 { return Err(BadNibble); }
      out[i] := 48 + nib;
    }
    assert out[..] == Unpacked(b, n, 0);
    return Ok(out[..]);
  }
}
