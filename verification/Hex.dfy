/** Hexadecimal text: upper case on output, either case on input. Bitmaps, hex binary
    fields and BER-TLV tags are written so. */
module Hex {
  import opened Wrappers
  import opened Numerals

  function HexDigit(n: nat): byte
    requires n < 16
  {
    if n < 10 then 48 + n else 55 + n
  }

  /** Digits are read in either case. */
  function Nibble(c: byte): Option<nat>
  {
    if 48 <= c <= 57 then Some(c - 48) else if 65 <= c <= 70 then Some(c - 55) else if 97 <= c <= 102 then Some(c - 87) else None
  }

  function HexOf(b: seq<byte>): (s: seq<byte>)
    ensures |s| == 2 * |b|
  {
    if b == [] then [] else [HexDigit(b[0] / 16), HexDigit(b[0] % 16)] + HexOf(b[1..])
  }

  function FromHex(s: seq<byte>): (b: Option<seq<byte>>)
    ensures b.Some? ==> |s| == 2 * |b.value|
    decreases |s|
  {
    if s == [] then Some([])
    else if |s| == 1 || Nibble(s[0]).None? || Nibble(s[1]).None? then None
    else
      var rest := FromHex(s[2..]);
      if rest.None? then None else Some([Nibble(s[0]).value * 16 + Nibble(s[1]).value] + rest.value)
  }

  lemma {:induction false} HexRoundTrip(b: seq<byte>)
    ensures FromHex(HexOf(b)) == Some(b)
  {
    if b != [] {
      HexRoundTrip(b[1..]);
      var s := HexOf(b);
      assert s[2..] == HexOf(b[1..]);
      assert Nibble(s[0]) == Some(b[0] / 16) && Nibble(s[1]) == Some(b[0] % 16);
      assert b[0] / 16 * 16 + b[0] % 16 == b[0];
      assert [b[0]] + b[1..] == b;
    }
  }
}
