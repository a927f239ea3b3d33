/** The presence bitmap (iso8583/bitmap.go) and its wire codecs
    (fieldcodec/bitmap.go). The three uint64 words are modelled by their 192 bits,
    most significant first, which is the order data elements are numbered in: word i
    is b[64 * i..64 * i + 64] and element de is bit de - 1. */
module Bitmaps {
  import opened Wrappers
  import opened Numerals
  import opened Hex

  type Bitmap = b: seq<bool> | |b| == 192 witness seq(192, _ => false)

  const MAX_DE: nat := 192
  const CONT_SECONDARY: nat := 1
  const CONT_TERTIARY: nat := 65

  function Empty(): Bitmap { seq(192, _ => false) }

  predicate IsSet(b: Bitmap, de: int) { 1 <= de <= MAX_DE && b[de - 1] }

  function Set(b: Bitmap, de: int): (r: Bitmap) { if 1 <= de <= MAX_DE then b[de - 1 := true] else b }

  function Clear(b: Bitmap, de: int): (r: Bitmap) { if 1 <= de <= MAX_DE then b[de - 1 := false] else b }

  /** The data elements whose bits are on. */
  function Bits(b: Bitmap): (s: set<nat>)
    ensures forall de :: de in s <==> IsSet(b, de)
  {
    set de | 1 <= de <= MAX_DE && IsSet(b, de)
  }

  // ----- ascending enumeration -----

  /** The members of s below n, in ascending order. */
  function Below(s: set<nat>, n: nat): (r: seq<nat>)
  {
    if n == 0 then [] else Below(s, n - 1) + if n - 1 in s then [n - 1] else []
  }

  lemma {:induction false} BelowGap(s: set<nat>, m: nat, n: nat)
    requires m <= n && forall x :: m <= x < n ==> x !in s
    ensures Below(s, m) == Below(s, n)
  {
    if m < n {
      BelowGap(s, m, n - 1);
    }
  }

  /** Below lists exactly the members, each once and in order. */
  lemma {:induction false} BelowIsSorted(s: set<nat>, n: nat)
    ensures forall i :: 0 <= i < |Below(s, n)| ==> Below(s, n)[i] in s && Below(s, n)[i] < n
    ensures forall i, j :: 0 <= i < j < |Below(s, n)| ==> Below(s, n)[i] < Below(s, n)[j]
    ensures forall x :: x in s && x < n ==> x in Below(s, n)
  {
    if n > 0 {
      BelowIsSorted(s, n - 1);
      var r, q := Below(s, n), Below(s, n - 1);
      forall x | x in s && x < n
        ensures x in r
      {
        if x < n - 1 {
          var i :| 0 <= i < |q| && q[i] == x;
          assert r[i] == x;
        } else {
          assert r[|r| - 1] == x;
        }
      }
    }
  }

  /** bits.LeadingZeros64 */
  function LeadingZeros(w: seq<bool>): (n: nat)
    ensures n <= |w|
    ensures forall i :: 0 <= i < n ==> !w[i]
    ensures n < |w| ==> w[n]
  {
    if w == [] || w[0] then 0 else 1 + LeadingZeros(w[1..])
  }

  function Word(b: Bitmap, i: nat): (w: seq<bool>)
    requires i < 3
    ensures |w| == 64
  {
    b[64 * i..64 * i + 64]
  }

  function Present(b: Bitmap): set<nat> { Bits(b) - {CONT_SECONDARY, CONT_TERTIARY} }

  /** One word of Range: its elements, appended to those already yielded. */
  method RangeWord(b: Bitmap, w: nat, before: seq<nat>) returns (des: seq<nat>)
    requires w < 3 && before == Below(Present(b), 64 * w + 1)
    ensures des == Below(Present(b), 64 * w + 65)
  {
    ghost var s := Present(b);
    var word, base := Word(b, w), w * 64;
    assert base == 64 * w && word == b[base..base + 64];
    des := before;
    ghost var p := 0;
    while LeadingZeros(word) < 64
      invariant 0 <= p <= 64 && |word| == 64
      invariant forall i :: 0 <= i < 64 ==> word[i] == (i >= p && b[base + i])
      invariant des == Below(s, base + p + 1)
      decreases 64 - p
    {
      var lz := LeadingZeros(word);
      var de := base + lz + 1;
      forall x | base + p + 1 <= x < de ensures x !in s {
        assert !word[x - 1 - base];
      }
      BelowGap(s, base + p + 1, de);
      assert word[lz] && b[base + lz] && IsSet(b, de);
      if de != CONT_SECONDARY && de != CONT_TERTIARY {
        des := des + [de];
      }
      word := word[lz := false];
      p := lz + 1;
    }
    forall x | base + p + 1 <= x < base + 65 ensures x !in s {
      assert !word[x - 1 - base];
    }
    BelowGap(s, base + p + 1, base + 65);
  }

  /** Range: the present data elements in ascending order, continuation bits excluded. */
  method Range(b: Bitmap) returns (des: seq<nat>)
    ensures des == Below(Present(b), MAX_DE + 1)
  {
    des := [];
    for w := 0 to 3
      invariant des == Below(Present(b), 64 * w + 1)
    {
      des := RangeWord(b, w, des);
    }
  }

  // ----- words on the wire -----

  datatype Repr = BinWord | HexWord

  datatype Error = ShortBitmap | BadHex

  /** The number a run of bits denotes. */
  function FromBits(w: seq<bool>): (n: nat)
    ensures n < Pow(2, |w|)
  {
    if w == [] then 0 else 2 * FromBits(w[..|w| - 1]) + if w[|w| - 1] then 1 else 0
  }

  function ToBits(x: nat, n: nat): (w: seq<bool>)
    ensures |w| == n
  {
    if n == 0 then [] else ToBits(x / 2, n - 1) + [x % 2 == 1]
  }

  lemma {:induction false} BitsRoundTrip(w: seq<bool>)
    ensures ToBits(FromBits(w), |w|) == w
  {
    if w != [] {
      BitsRoundTrip(w[..|w| - 1]);
    }
  }

  lemma PowTwoEight()
    ensures Pow(2, 8) == 256
  {
    assert Pow(2, 4) == 16;
  }

  function OctetOf(w: seq<bool>): (x: byte)
    requires |w| == 8
  {
    PowTwoEight(); FromBits(w)
  }

  /** Big-endian octets of a run of bits (binary.BigEndian.PutUint64). */
  function Octets(w: seq<bool>): (s: seq<byte>)
    requires |w| % 8 == 0
    ensures |s| == |w| / 8
  {
    seq(|w| / 8, k requires 0 <= k < |w| / 8 => OctetOf(w[8 * k..8 * k + 8]))
  }

  function OctetBits(s: seq<byte>): (w: seq<bool>)
    ensures |w| == 8 * |s|
  {
    seq(8 * |s|, i requires 0 <= i < 8 * |s| => ToBits(s[i / 8], 8)[i % 8])
  }

  lemma OctetsRoundTrip(w: seq<bool>)
    requires |w| % 8 == 0
    ensures OctetBits(Octets(w)) == w
  {
    forall i | 0 <= i < |w| ensures OctetBits(Octets(w))[i] == w[i] {
      OctetBitAt(w, i / 8, i % 8);
    }
  }

  lemma OctetBitAt(w: seq<bool>, k: nat, j: nat)
    requires |w| % 8 == 0 && j < 8 && 8 * k + 8 <= |w|
    ensures OctetBits(Octets(w))[8 * k + j] == w[8 * k + j]
  {
    OctetsAt(w, k);
    BitsRoundTrip(w[8 * k..8 * k + 8]);
    DivMod8(k, j);
    OctetBitIs(Octets(w), 8 * k + j, k, j);
  }

  lemma OctetsAt(w: seq<bool>, k: nat)
    requires |w| % 8 == 0 && 8 * k + 8 <= |w|
    ensures k < |Octets(w)| && Octets(w)[k] == OctetOf(w[8 * k..8 * k + 8]) && 8 * |Octets(w)| == |w|
  {
  }

  lemma OctetBitIs(s: seq<byte>, i: nat, k: nat, j: nat)
    requires k < |s| && j < 8 && i < 8 * |s| && i / 8 == k && i % 8 == j
    ensures OctetBits(s)[i] == ToBits(s[k], 8)[j]
  {
  }

  lemma DivMod8(k: nat, j: nat)
    requires j < 8
    ensures (8 * k + j) / 8 == k && (8 * k + j) % 8 == j
  {
  }

  function WireLen(r: Repr): (n: nat)
  {
    if r.BinWord? then 8 else 16
  }

  function PutWord(r: Repr, w: seq<bool>): (s: seq<byte>)
    requires |w| == 64
    ensures |s| == WireLen(r)
  {
    if r.BinWord? then Octets(w) else HexOf(Octets(w))
  }

  function GetWord(r: Repr, s: seq<byte>): (w: Option<seq<bool>>)
    requires |s| == WireLen(r)
    ensures w.Some? ==> |w.value| == 64
  {
    if r.BinWord? then Some(OctetBits(s)) else
      var d := FromHex(s);
      if d.None? then None else Some(OctetBits(d.value))
  }

  lemma PutGetWord(r: Repr, w: seq<bool>)
    requires |w| == 64
    ensures GetWord(r, PutWord(r, w)) == Some(w)
  {
    OctetsRoundTrip(w);
    HexRoundTrip(Octets(w));
  }

  // ----- levels -----

  predicate AnySet(w: seq<bool>) { exists i :: 0 <= i < |w| && w[i] }

  predicate Need3(b: Bitmap, maxLevels: nat) { AnySet(Word(b, 2)) && maxLevels >= 3 }

  predicate Need2(b: Bitmap, maxLevels: nat) { (AnySet(Word(b, 1)) || Need3(b, maxLevels)) && maxLevels >= 2 }

  /** How many levels the present set needs (levelWords' n). */
  function LevelCount(b: Bitmap, maxLevels: nat): (n: nat)
    ensures 1 <= n <= 3
  {
    if Need3(b, maxLevels) then 3 else if Need2(b, maxLevels) then 2 else 1
  }

  /** The words to emit, continuation bits set (levelWords' w). */
  function LevelWords(b: Bitmap, maxLevels: nat): (w: Bitmap)
  {
    var w := if Need2(b, maxLevels) then b[0 := true] else b;
    if Need3(b, maxLevels) then w[64 := true] else w
  }

  /** The words i..n-1 of b, one after the other. */
  function PutWords(r: Repr, b: Bitmap, i: nat, n: nat): (s: seq<byte>)
    requires i <= n <= 3
    decreases n - i
  {
    if i == n then [] else PutWord(r, Word(b, i)) + PutWords(r, b, i + 1, n)
  }

  function WriteSpec(r: Repr, b: Bitmap, maxLevels: nat): (s: seq<byte>)
  {
    PutWords(r, LevelWords(b, maxLevels), 0, LevelCount(b, maxLevels))
  }

  method WriteBitmap(r: Repr, dst: seq<byte>, b: Bitmap, maxLevels: nat) returns (out: seq<byte>)
    ensures out == dst + WriteSpec(r, b, maxLevels)
  {
    var w, n := LevelWords(b, maxLevels), LevelCount(b, maxLevels);
    out := dst;
    for i := 0 to n
      invariant out + PutWords(r, w, i, n) == dst + PutWords(r, w, 0, n)
    {
      ConcatAssoc(out, PutWord(r, Word(w, i)), PutWords(r, w, i + 1, n));
      out := out + PutWord(r, Word(w, i));
    }
    assert out + [] == out;
  }

  datatype Read = Read(bm: Bitmap, next: nat)

  /** SetWord: b with word i replaced. */
  function SetWord(b: Bitmap, i: nat, w: seq<bool>): (r: Bitmap)
    requires i < 3 && |w| == 64
  {
    b[..64 * i] + w + b[64 * i + 64..]
  }

  /** ReadBitmap from `level` on, with the words read so far in bm. */
  function ReadLevels(r: Repr, src: seq<byte>, off: nat, maxLevels: nat, level: nat, bm: Bitmap): (res: Result<Read, Error>)
    requires level < 3
    ensures res.Ok? ==> off <= res.value.next <= |src|
    decreases 3 - level
  {
    var wl := WireLen(r);
    if off > |src| || |src| - off < wl then Err(ShortBitmap) else
      var w := GetWord(r, src[off..off + wl]);
      if w.None? then Err(BadHex) else
        var bm' := SetWord(bm, level, w.value);
        if !w.value[0] || level + 1 >= maxLevels || level == 2 then Ok(Read(bm', off + wl))
        else ReadLevels(r, src, off + wl, maxLevels, level + 1, bm')
  }

  function ReadSpec(r: Repr, src: seq<byte>, off: nat, maxLevels: nat): (res: Result<Read, Error>)
    ensures res.Ok? ==> off <= res.value.next <= |src|
  {
    ReadLevels(r, src, off, maxLevels, 0, Empty())
  }

  method ReadBitmap(r: Repr, src: seq<byte>, off0: nat, maxLevels: nat) returns (res: Result<Read, Error>)
    ensures res == ReadSpec(r, src, off0, maxLevels)
  {
    var bm: Bitmap, off: nat := Empty(), off0;
    var wl := WireLen(r);
    var level := 0;
    while level < 3
      invariant 0 <= level < 3
      invariant ReadSpec(r, src, off0, maxLevels) == ReadLevels(r, src, off, maxLevels, level, bm)
      decreases 3 - level
    {
      if off > |src| || |src| - off < wl { return Err(ShortBitmap); }
      var w := GetWord(r, src[off..off + wl]);
      if w.None? { return Err(BadHex); }
      bm := SetWord(bm, level, w.value);
      off := off + wl;
      if !w.value[0] || level + 1 >= maxLevels || level == 2 { break; }
      level := level + 1;
    }
    return Ok(Read(bm, off));
  }

  /** The data elements a bitmap of `levels` words can carry: the rest collide with a
      continuation bit or fall off the end. */
  predicate Addressable(de: nat, levels: nat)
  {
    2 <= de <= 64 * levels && de != CONT_TERTIARY
  }

  ghost predicate AllAddressable(b: Bitmap, levels: nat)
  {
    forall de :: IsSet(b, de) ==> Addressable(de, levels)
  }

  lemma WordEmpty(b: Bitmap, w: nat, levels: nat)
    requires w < 3 && AllAddressable(b, levels)
    requires w >= LevelCount(b, levels)
    ensures forall i :: 64 * w <= i < 64 * w + 64 ==> !b[i]
  {
    forall i | 64 * w <= i < 64 * w + 64 ensures !b[i] {
      if b[i] {
        assert Word(b, w)[i - 64 * w];
        assert IsSet(b, i + 1);
      }
    }
  }

  /** b's first n words followed by empty ones. */
  function Truncated(b: Bitmap, n: nat): (r: Bitmap)
    requires n <= 3
  {
    b[..64 * n] + Empty()[64 * n..]
  }

  lemma TruncatedStep(w: Bitmap, i: nat)
    requires i < 3
    ensures SetWord(Truncated(w, i), i, Word(w, i)) == Truncated(w, i + 1)
  {
    var l, r := SetWord(Truncated(w, i), i, Word(w, i)), Truncated(w, i + 1);
    forall j | 0 <= j < 192 ensures l[j] == r[j] {
      if j < 64 * i {
        assert l[j] == Truncated(w, i)[j] == w[j];
      } else if j < 64 * i + 64 {
        assert l[j] == Word(w, i)[j - 64 * i] == w[j];
      } else {
        assert l[j] == Truncated(w, i)[j];
      }
    }
  }

  /** Word k of n announces the next one, and the last announces none (where a
      further level would be read at all). */
  predicate Continues(w: Bitmap, levels: nat, n: nat, k: nat)
    requires k < n <= 3
  {
    (k + 1 < n ==> w[64 * k]) && (k + 1 == n < levels ==> !w[64 * k])
  }

  /** Word i of w stands at off, and the next one would stand at next. */
  predicate WordAt(r: Repr, w: Bitmap, src: seq<byte>, off: nat, next: nat, i: nat)
    requires i < 3
  {
    next == off + |PutWord(r, Word(w, i))| <= |src| && src[off..next] == PutWord(r, Word(w, i))
  }

  predicate AllContinue(w: Bitmap, levels: nat, n: nat, i: nat)
    requires i <= n <= 3
    decreases n - i
  {
    i == n || (Continues(w, levels, n, i) && AllContinue(w, levels, n, i + 1))
  }

  /** Words i to n - 1 of w are p, and p stands at off. */
  predicate Stand(r: Repr, w: Bitmap, src: seq<byte>, off: nat, p: seq<byte>, i: nat, n: nat)
    requires i <= n <= 3
  {
    p == PutWords(r, w, i, n) && off + |p| <= |src| && src[off..off + |p|] == p
  }

  lemma FirstStands(r: Repr, w: Bitmap, src: seq<byte>, off: nat, p: seq<byte>, i: nat, n: nat) returns (next: nat, rest: seq<byte>)
    requires i < n <= 3 && Stand(r, w, src, off, p, i, n)
    ensures WordAt(r, w, src, off, next, i) && Stand(r, w, src, next, rest, i + 1, n) && next + |rest| == off + |p|
  {
    var word := PutWord(r, Word(w, i));
    rest := PutWords(r, w, i + 1, n);
    PartsOf(src, off, word, rest);
    next := off + |word|;
  }

  /** Reading the words of w, announced as they are, returns them. */
  lemma {:induction false} LevelsBack(r: Repr, w: Bitmap, levels: nat, src: seq<byte>, off: nat, p: seq<byte>, end: nat, i: nat, n: nat)
    requires i < n <= levels <= 3 && AllContinue(w, levels, n, i) && Stand(r, w, src, off, p, i, n) && end == off + |p|
    ensures ReadLevels(r, src, off, levels, i, Truncated(w, i)) == Ok(Read(Truncated(w, n), end))
    decreases n - i
  {
    var next, rest := FirstStands(r, w, src, off, p, i, n);
    if i + 1 < n {
      LevelsBack(r, w, levels, src, next, rest, end, i + 1, n);
      WordFollowed(r, w, levels, src, off, next, i, n, Ok(Read(Truncated(w, n), end)));
    } else {
      assert rest == [];
      LastWordBack(r, w, levels, src, off, next, i, n);
    }
  }

  /** Reading any word but the last goes on behind it. */
  lemma WordFollowed(r: Repr, w: Bitmap, levels: nat, src: seq<byte>, off: nat, next: nat, i: nat, n: nat, res: Result<Read, Error>)
    requires i + 1 < n <= levels <= 3 && Continues(w, levels, n, i) && WordAt(r, w, src, off, next, i)
    requires ReadLevels(r, src, next, levels, i + 1, Truncated(w, i + 1)) == res
    ensures ReadLevels(r, src, off, levels, i, Truncated(w, i)) == res
  {
    WordGot(r, w, src, off, next, i);
    ReadStep(r, src, off, next, levels, i, Truncated(w, i), Word(w, i));
  }

  /** Reading the last word stops. */
  lemma LastWordBack(r: Repr, w: Bitmap, levels: nat, src: seq<byte>, off: nat, next: nat, i: nat, n: nat)
    requires i + 1 == n <= levels <= 3 && Continues(w, levels, n, i) && WordAt(r, w, src, off, next, i)
    ensures ReadLevels(r, src, off, levels, i, Truncated(w, i)) == Ok(Read(Truncated(w, n), next))
  {
    WordGot(r, w, src, off, next, i);
    ReadStep(r, src, off, next, levels, i, Truncated(w, i), Word(w, i));
  }

  lemma WordGot(r: Repr, w: Bitmap, src: seq<byte>, off: nat, next: nat, i: nat)
    requires i < 3 && WordAt(r, w, src, off, next, i)
    ensures off + WireLen(r) == next && GetWord(r, src[off..next]) == Some(Word(w, i)) && Word(w, i)[0] == w[64 * i]
    ensures SetWord(Truncated(w, i), i, Word(w, i)) == Truncated(w, i + 1)
  {
    PutGetWord(r, Word(w, i));
    TruncatedStep(w, i);
  }

  lemma ReadStep(r: Repr, src: seq<byte>, o: nat, o': nat, levels: nat, i: nat, bm: Bitmap, word: seq<bool>)
    requires i < 3 && o + WireLen(r) == o' <= |src| && GetWord(r, src[o..o']) == Some(word)
    ensures ReadLevels(r, src, o, levels, i, bm)
            == if !word[0] || i + 1 >= levels || i == 2 then Ok(Read(SetWord(bm, i, word), o'))
               else ReadLevels(r, src, o', levels, i + 1, SetWord(bm, i, word))
  {
  }

  lemma ContinuationBits(b: Bitmap, levels: nat, k: nat)
    requires 1 <= levels <= 3 && AllAddressable(b, levels) && k < LevelCount(b, levels)
    ensures LevelCount(b, levels) <= levels
    ensures Continues(LevelWords(b, levels), levels, LevelCount(b, levels), k)
  {
    assert !IsSet(b, 1) && !IsSet(b, 65);
  }

  lemma {:induction false} AllContinuationBits(b: Bitmap, levels: nat, i: nat)
    requires 1 <= levels <= 3 && AllAddressable(b, levels) && i <= LevelCount(b, levels) <= 3
    ensures AllContinue(LevelWords(b, levels), levels, LevelCount(b, levels), i)
    decreases LevelCount(b, levels) - i
  {
    if i < LevelCount(b, levels) {
      ContinuationBits(b, levels, i);
      AllContinuationBits(b, levels, i + 1);
    }
  }

  /** Nothing is read past the allowed levels. */
  lemma {:induction false} ReadBounded(r: Repr, src: seq<byte>, off: nat, levels: nat, level: nat, bm: Bitmap)
    requires level < levels <= 3 && forall i :: 64 * level <= i < 192 ==> !bm[i]
    ensures var res := ReadLevels(r, src, off, levels, level, bm);
            res.Ok? ==> forall i :: 64 * levels <= i < 192 ==> !res.value.bm[i]
    decreases 3 - level
  {
    if off + WireLen(r) <= |src| {
      var w := GetWord(r, src[off..off + WireLen(r)]);
      if w.Some? && level + 1 < levels {
        ReadBounded(r, src, off + WireLen(r), levels, level + 1, SetWord(bm, level, w.value));
      }
    }
  }

  /** What WriteBitmap emits is read back, wherever it stands, as the same elements
      exactly when every element is addressable: 1 and 65 are taken for continuation
      bits and anything past the last level is dropped. */
  lemma BitmapRoundTrip(r: Repr, b: Bitmap, levels: nat, src: seq<byte>, off: nat)
    requires 1 <= levels <= 3
    requires var s := WriteSpec(r, b, levels); off + |s| <= |src| && src[off..off + |s|] == s
    ensures var res := ReadSpec(r, src, off, levels);
            (res.Ok? && res.value.next == off + |WriteSpec(r, b, levels)| && Present(res.value.bm) == Bits(b))
            <==> AllAddressable(b, levels)
  {
    if AllAddressable(b, levels) {
      var bm := WrittenIsRead(r, b, levels, src, off, WriteSpec(r, b, levels));
    } else if ReadSpec(r, src, off, levels).Ok? {
      LostElement(r, b, levels, src, off);
    }
  }

  lemma LostElement(r: Repr, b: Bitmap, levels: nat, src: seq<byte>, off: nat)
    requires 1 <= levels <= 3 && !AllAddressable(b, levels) && ReadSpec(r, src, off, levels).Ok?
    ensures Present(ReadSpec(r, src, off, levels).value.bm) != Bits(b)
  {
    var de :| IsSet(b, de) && !Addressable(de, levels);
    ReadBounded(r, src, off, levels, 0, Empty());
    NotShown(ReadSpec(r, src, off, levels).value.bm, de, levels);
    assert de in Bits(b);
  }

  lemma NotShown(bm: Bitmap, de: nat, levels: nat)
    requires forall i :: 64 * levels <= i < 192 ==> !bm[i]
    requires !Addressable(de, levels)
    ensures de !in Present(bm)
  {
    if de > 64 * levels && de <= MAX_DE { assert !bm[de - 1]; }
  }

  lemma WrittenIsRead(r: Repr, b: Bitmap, levels: nat, src: seq<byte>, off: nat, p: seq<byte>) returns (bm: Bitmap)
    requires 1 <= levels <= 3 && AllAddressable(b, levels)
    requires p == WriteSpec(r, b, levels) && off + |p| <= |src| && src[off..off + |p|] == p
    ensures ReadSpec(r, src, off, levels) == Ok(Read(bm, off + |p|)) && Present(bm) == Bits(b)
  {
    WordsRead(r, b, levels, src, off, p);
    SameElements(b, levels);
    bm := Truncated(LevelWords(b, levels), LevelCount(b, levels));
  }

  lemma WordsRead(r: Repr, b: Bitmap, levels: nat, src: seq<byte>, off: nat, p: seq<byte>)
    requires 1 <= levels <= 3 && AllAddressable(b, levels)
    requires p == WriteSpec(r, b, levels) && off + |p| <= |src| && src[off..off + |p|] == p
    ensures ReadSpec(r, src, off, levels) == Ok(Read(Truncated(LevelWords(b, levels), LevelCount(b, levels)), off + |p|))
  {
    Announced(b, levels);
    ReadBack(r, LevelWords(b, levels), levels, src, off, p, LevelCount(b, levels));
  }

  lemma Announced(b: Bitmap, levels: nat)
    requires 1 <= levels <= 3 && AllAddressable(b, levels)
    ensures 1 <= LevelCount(b, levels) <= levels
    ensures AllContinue(LevelWords(b, levels), levels, LevelCount(b, levels), 0)
  {
    ContinuationBits(b, levels, 0);
    AllContinuationBits(b, levels, 0);
  }

  lemma ReadBack(r: Repr, w: Bitmap, levels: nat, src: seq<byte>, off: nat, p: seq<byte>, n: nat)
    requires 1 <= n <= levels <= 3 && AllContinue(w, levels, n, 0) && Stand(r, w, src, off, p, 0, n)
    ensures ReadSpec(r, src, off, levels) == Ok(Read(Truncated(w, n), off + |p|))
  {
    NothingYet(w);
    LevelsBack(r, w, levels, src, off, p, off + |p|, 0, n);
  }

  lemma NothingYet(w: Bitmap)
    ensures Truncated(w, 0) == Empty()
  {
    assert w[..64 * 0] == [];
    assert Empty()[64 * 0..] == Empty();
  }

  lemma SameElements(b: Bitmap, levels: nat)
    requires AllAddressable(b, levels)
    ensures Present(Truncated(LevelWords(b, levels), LevelCount(b, levels))) == Bits(b)
  {
    var w, n := LevelWords(b, levels), LevelCount(b, levels);
    forall de | 1 <= de <= MAX_DE && de != 1 && de != 65
      ensures IsSet(Truncated(w, n), de) == IsSet(b, de)
    {
      assert w[de - 1] == b[de - 1];
      if de > 64 * n {
        WordEmpty(b, (de - 1) / 64, levels);
      }
    }
  }
}
