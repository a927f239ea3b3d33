/** The KSN counter and the 64-bit shift register of DUKPT (vault/dukpt.go), as the code's
    octets and 32-bit words, and as the bits they stand for, most significant first. */
module Registers {
  import opened Numerals

  type Bits = seq<bool>

  /** Counter bits, at the right end of the 64-bit register. */
  const COUNTER := 21

  // ----- rows of eight bits -----

  predicate Eights(rows: seq<Bits>) { forall i :: 0 <= i < |rows| ==> |rows[i]| == 8 }

  function Flat(rows: seq<Bits>): Bits { if rows == [] then [] else rows[0] + Flat(rows[1..]) }

  lemma {:induction false} FlatSize(rows: seq<Bits>)
    requires Eights(rows)
    ensures |Flat(rows)| == 8 * |rows|
  {
    if rows != [] { FlatSize(rows[1..]); }
  }

  lemma {:induction false} FlatConcat(a: seq<Bits>, b: seq<Bits>)
    ensures Flat(a + b) == Flat(a) + Flat(b)
  {
    if a == [] {
      assert a + b == b;
    } else {
      assert (a + b)[1..] == a[1..] + b;
      FlatConcat(a[1..], b);
    }
  }

  /** Around row k. */
  lemma FlatAt(rows: seq<Bits>, k: nat)
    requires k < |rows|
    ensures Flat(rows) == Flat(rows[..k]) + rows[k] + Flat(rows[k + 1..])
  {
    Around(rows, k);
    FlatConcat(rows[..k], rows[k..]);
    ConcatAssoc(Flat(rows[..k]), rows[k], Flat(rows[k + 1..]));
  }

  lemma Around<T>(s: seq<T>, k: nat)
    requires k < |s|
    ensures s[..k] + s[k..] == s && s[k..] != [] && s[k..][0] == s[k] && s[k..][1..] == s[k + 1..]
  {
  }

  lemma BitAt(rows: seq<Bits>, k: nat, j: nat)
    requires Eights(rows) && k < |rows| && j < 8
    ensures |Flat(rows)| == 8 * |rows| && Flat(rows)[8 * k + j] == rows[k][j]
  {
    FlatSize(rows);
    FlatSize(rows[..k]);
    FlatAt(rows, k);
  }

  /** Setting a bit of a row sets that one bit. */
  lemma BitSet(rows: seq<Bits>, k: nat, j: nat)
    requires Eights(rows) && k < |rows| && j < 8
    ensures |Flat(rows)| == 8 * |rows| && Flat(rows[k := rows[k][j := true]]) == Flat(rows)[8 * k + j := true]
  {
    var row := rows[k][j := true];
    var rows' := rows[k := row];
    FlatSize(rows);
    FlatSize(rows[..k]);
    FlatAt(rows, k);
    FlatAt(rows', k);
    assert rows'[..k] == rows[..k] && rows'[k + 1..] == rows[k + 1..];
    Spliced(Flat(rows[..k]), rows[k], Flat(rows[k + 1..]), j);
  }

  lemma Spliced(a: Bits, b: Bits, c: Bits, j: nat)
    requires j < |b|
    ensures (a + b + c)[|a| + j := true] == a + b[j := true] + c
  {
  }

  function Off(n: nat): (c: Bits) ensures |c| == n { seq(n, _ => false) }

  /** Clearing all but the first three bits of the last three rows of eight. */
  lemma BitsCleared(rows: seq<Bits>, rows': seq<Bits>)
    requires Eights(rows) && |rows| == 8 && rows' == rows[..5] + [rows[5][..3] + Off(5), Off(8), Off(8)]
    ensures |Flat(rows)| == 64 && Flat(rows') == Flat(rows)[..64 - COUNTER] + Off(COUNTER)
  {
    var front, top := rows[..5], rows[5][..3] + Off(5);
    FlatSize(rows);
    FlatSize(front);
    FlatConcat(front, [top, Off(8), Off(8)]);
    FlatThree(top, Off(8), Off(8));
    FlatAt(rows, 5);
    TopOf(Flat(front), rows[5], Flat(rows[6..]));
  }

  lemma FlatThree(a: Bits, b: Bits, c: Bits)
    ensures Flat([a, b, c]) == a + (b + c)
  {
    assert [a, b, c][1..] == [b, c] && [b, c][1..] == [c] && [c][1..] == [];
    assert Flat([c]) == c + Flat([]);
    assert Flat([b, c]) == b + Flat([c]);
  }

  lemma TopOf(a: Bits, b: Bits, c: Bits)
    requires |a| == 40 && |b| == 8
    ensures a + ((b[..3] + Off(5)) + (Off(8) + Off(8))) == (a + b + c)[..64 - COUNTER] + Off(COUNTER)
  {
  }

  // ----- octets and bits -----

  const MASKS: seq<bv8> := [0x80, 0x40, 0x20, 0x10, 0x08, 0x04, 0x02, 0x01]

  /** b tested against each mask. */
  function Tests(b: bv8, masks: seq<bv8>): (x: Bits)
    ensures |x| == |masks|
  {
    if masks == [] then [] else [b & masks[0] != 0] + Tests(b, masks[1..])
  }

  lemma {:induction false} TestAt(b: bv8, masks: seq<bv8>, i: nat)
    requires i < |masks|
    ensures Tests(b, masks)[i] == (b & masks[i] != 0)
  {
    if i > 0 { TestAt(b, masks[1..], i - 1); }
  }

  function BitsOf(b: bv8): (x: Bits)
    ensures |x| == 8
  {
    [b & 0x80 != 0, b & 0x40 != 0, b & 0x20 != 0, b & 0x10 != 0, b & 0x08 != 0, b & 0x04 != 0, b & 0x02 != 0, b & 0x01 != 0]
  }

  lemma SameEight(x: Bits, y: Bits)
    requires |x| == |y| == 8 && x[0] == y[0] && x[1] == y[1] && x[2] == y[2] && x[3] == y[3]
             && x[4] == y[4] && x[5] == y[5] && x[6] == y[6] && x[7] == y[7]
    ensures x == y
  {
  }

  lemma HighTests(b: bv8, t: Bits)
    requires t == Tests(b, MASKS)
    ensures t[0] == (b & 0x80 != 0) && t[1] == (b & 0x40 != 0) && t[2] == (b & 0x20 != 0) && t[3] == (b & 0x10 != 0)
  {
    TestAt(b, MASKS, 0);
    TestAt(b, MASKS, 1);
    TestAt(b, MASKS, 2);
    TestAt(b, MASKS, 3);
  }

  lemma LowTests(b: bv8, t: Bits)
    requires t == Tests(b, MASKS)
    ensures t[4] == (b & 0x08 != 0) && t[5] == (b & 0x04 != 0) && t[6] == (b & 0x02 != 0) && t[7] == (b & 0x01 != 0)
  {
    TestAt(b, MASKS, 4);
    TestAt(b, MASKS, 5);
    TestAt(b, MASKS, 6);
    TestAt(b, MASKS, 7);
  }

  lemma BitsAreTests(b: bv8)
    ensures BitsOf(b) == Tests(b, MASKS)
  {
    HighTests(b, Tests(b, MASKS));
    LowTests(b, Tests(b, MASKS));
    BitsAre(b, Tests(b, MASKS));
  }

  lemma BitsAre(b: bv8, t: Bits)
    requires |t| == 8
    requires t[0] == (b & 0x80 != 0) && t[1] == (b & 0x40 != 0) && t[2] == (b & 0x20 != 0) && t[3] == (b & 0x10 != 0)
    requires t[4] == (b & 0x08 != 0) && t[5] == (b & 0x04 != 0) && t[6] == (b & 0x02 != 0) && t[7] == (b & 0x01 != 0)
    ensures BitsOf(b) == t
  {
    SameEight(BitsOf(b), t);
  }

  function On(x: bool, b: bv8): bv8 { if x then b else 0 }

  function OctetOf(x: Bits): bv8
    requires |x| == 8
  {
    On(x[0], 0x80) | On(x[1], 0x40) | On(x[2], 0x20) | On(x[3], 0x10)
    | On(x[4], 0x08) | On(x[5], 0x04) | On(x[6], 0x02) | On(x[7], 0x01)
  }

  lemma OctetBits(b: bv8)
    ensures OctetOf(BitsOf(b)) == b
  {
  }

  function Rows(o: seq<bv8>): (rows: seq<Bits>)
    ensures |rows| == |o| && Eights(rows)
  {
    seq(|o|, i requires 0 <= i < |o| => BitsOf(o[i]))
  }

  function Unpacked(o: seq<bv8>): (x: Bits)
    ensures |x| == 8 * |o|
  {
    FlatSize(Rows(o));
    Flat(Rows(o))
  }

  function Packed(x: Bits): (o: seq<bv8>)
    requires |x| % 8 == 0
    ensures 8 * |o| == |x|
    decreases |x|
  {
    if x == [] then [] else [OctetOf(x[..8])] + Packed(x[8..])
  }

  lemma {:induction false} PackedUnpacked(o: seq<bv8>)
    ensures Packed(Unpacked(o)) == o
  {
    if o != [] {
      assert Rows(o)[1..] == Rows(o[1..]);
      FirstRow(Rows(o));
      OctetBits(o[0]);
      PackedUnpacked(o[1..]);
    }
  }

  lemma FirstRow(rows: seq<Bits>)
    requires rows != [] && Eights(rows)
    ensures |Flat(rows)| >= 8 && Flat(rows)[..8] == rows[0] && Flat(rows)[8..] == Flat(rows[1..])
  {
  }

  /** The 21-bit transaction counter of a KSN. */
  function CounterOf(ksn: seq<bv8>): (c: Bits)
    requires |ksn| == 10
    ensures |c| == COUNTER
  {
    Unpacked(ksn[2..])[64 - COUNTER..]
  }

  /** The rightmost 64 bits of the KSN above the counter. */
  function Device(ksn: seq<bv8>): (b: Bits)
    requires |ksn| == 10
    ensures |b| == 64 - COUNTER
  {
    Unpacked(ksn[2..])[..64 - COUNTER]
  }

  /** Bitwise or, bit by bit. */
  function Either(x: Bits, y: Bits): (z: Bits)
    requires |x| == |y|
  {
    seq(|x|, i requires 0 <= i < |x| => x[i] || y[i])
  }

  lemma OrTest(a: bv8, b: bv8, m: bv8)
    ensures (a | b) & m != 0 <==> a & m != 0 || b & m != 0
  {
  }

  lemma {:induction false} OrTested(a: bv8, b: bv8, masks: seq<bv8>)
    ensures Tests(a | b, masks) == Either(Tests(a, masks), Tests(b, masks))
  {
    if masks != [] {
      OrTest(a, b, masks[0]);
      OrTested(a, b, masks[1..]);
      EitherConcat([a & masks[0] != 0], [b & masks[0] != 0], Tests(a, masks[1..]), Tests(b, masks[1..]));
    }
  }

  lemma OrBits(a: bv8, b: bv8)
    ensures BitsOf(a | b) == Either(BitsOf(a), BitsOf(b))
  {
    BitsAreTests(a);
    BitsAreTests(b);
    BitsAreTests(a | b);
    OrTested(a, b, MASKS);
  }

  predicate Meet(x: Bits, y: Bits)
    requires |x| == |y|
  {
    exists i :: 0 <= i < |x| && x[i] && y[i]
  }

  lemma AndBits(a: bv8, b: bv8)
    ensures a & b != 0 <==> Meet(BitsOf(a), BitsOf(b))
  {
    AndTests(a, b);
    var x, y := BitsOf(a), BitsOf(b);
    assert a & b != 0 ==> (x[0] && y[0]) || (x[1] && y[1]) || (x[2] && y[2]) || (x[3] && y[3])
                          || (x[4] && y[4]) || (x[5] && y[5]) || (x[6] && y[6]) || (x[7] && y[7]);
  }

  lemma AndTests(a: bv8, b: bv8)
    ensures a & b != 0 <==>
            || (a & 0x80 != 0 && b & 0x80 != 0) || (a & 0x40 != 0 && b & 0x40 != 0)
            || (a & 0x20 != 0 && b & 0x20 != 0) || (a & 0x10 != 0 && b & 0x10 != 0)
            || (a & 0x08 != 0 && b & 0x08 != 0) || (a & 0x04 != 0 && b & 0x04 != 0)
            || (a & 0x02 != 0 && b & 0x02 != 0) || (a & 0x01 != 0 && b & 0x01 != 0)
  {
  }

  lemma TopKept(b: bv8)
    ensures BitsOf(b & 0xE0) == BitsOf(b)[..3] + Off(5) && BitsOf(0) == Off(8)
  {
  }

  // ----- the code's words -----

  /** The loop's shift when it looks at counter bit i, from the left; 0 past the last. */
  function ShiftAt(i: nat): bv32
    requires i <= COUNTER
  {
    match i
    case 0 => 0x100000 case 1 => 0x80000 case 2 => 0x40000 case 3 => 0x20000 case 4 => 0x10000
    case 5 => 0x8000 case 6 => 0x4000 case 7 => 0x2000 case 8 => 0x1000
    case 9 => 0x800 case 10 => 0x400 case 11 => 0x200 case 12 => 0x100
    case 13 => 0x80 case 14 => 0x40 case 15 => 0x20 case 16 => 0x10 case 17 => 0x8 case 18 => 0x4 case 19 => 0x2 case 20 => 0x1
    case _ => 0
  }

  lemma ShiftStep(i: nat)
    requires i < COUNTER
    ensures ShiftAt(i) > 0 && ShiftAt(i) >> 1 == ShiftAt(i + 1)
  {
  }

  /** byte(x) */
  function LowOctet(x: bv32): bv8 { (x & 0xFF) as bv8 }

  /** The shift as three octets. */
  function ShiftOctets(s: bv32): (o: seq<bv8>)
    ensures |o| == 3
  {
    [LowOctet(s >> 16) & 0x1F, LowOctet(s >> 8), LowOctet(s)]
  }

  lemma ShiftBits(i: nat)
    requires i < COUNTER
    ensures Unpacked(ShiftOctets(ShiftAt(i))) == Off(24)[3 + i := true]
  {
    var (k, j) := Place(i);
    ShiftPlaced(i);
    MaskBits(j);
    var rows := Rows([0, 0, 0]);
    assert rows == [Off(8), Off(8), Off(8)];
    FlatThree(Off(8), Off(8), Off(8));
    assert Flat(rows) == Off(24);
    assert Rows([0, 0, 0][k := Mask(j)]) == rows[k := rows[k][j := true]];
    BitSet(rows, k, j);
  }

  /** The octet with only bit j on. */
  function Mask(j: nat): bv8
    requires j < 8
  {
    match j case 0 => 0x80 case 1 => 0x40 case 2 => 0x20 case 3 => 0x10 case 4 => 0x08 case 5 => 0x04 case 6 => 0x02 case _ => 0x01
  }

  lemma MaskBits(j: nat)
    requires j < 8
    ensures BitsOf(Mask(j)) == Off(8)[j := true] && BitsOf(0) == Off(8)
  {
  }

  /** The octet, and the bit in it, that counter bit i is. */
  function Place(i: nat): (nat, nat)
    requires i < COUNTER
  {
    if i < 5 then (0, i + 3) else if i < 13 then (1, i - 5) else (2, i - 13)
  }

  lemma ShiftPlaced(i: nat)
    requires i < COUNTER
    ensures ShiftOctets(ShiftAt(i)) == [0, 0, 0][Place(i).0 := Mask(Place(i).1)]
  {
    if i < 5 { HighShift(i); } else if i < 13 { MiddleShift(i); } else { LowShift(i); }
  }

  lemma HighShift(i: nat)
    requires i < 5
    ensures var s := ShiftAt(i); LowOctet(s >> 16) & 0x1F == Mask(i + 3) && LowOctet(s >> 8) == 0 && LowOctet(s) == 0
  {
  }

  lemma MiddleShift(i: nat)
    requires 5 <= i < 13
    ensures var s := ShiftAt(i); LowOctet(s >> 16) & 0x1F == 0 && LowOctet(s >> 8) == Mask(i - 5) && LowOctet(s) == 0
  {
  }

  lemma LowShift(i: nat)
    requires 13 <= i < COUNTER
    ensures var s := ShiftAt(i); LowOctet(s >> 16) & 0x1F == 0 && LowOctet(s >> 8) == 0 && LowOctet(s) == Mask(i - 13)
  {
  }

  // ----- setCounterBit -----

  function OrAll(o: seq<bv8>, m: seq<bv8>): (r: seq<bv8>)
    requires |o| == |m|
    ensures |r| == |o|
  {
    seq(|o|, i requires 0 <= i < |o| => o[i] | m[i])
  }

  lemma {:induction false} EitherFlat(x: seq<Bits>, y: seq<Bits>, z: seq<Bits>)
    requires |x| == |y| == |z| && Eights(x) && Eights(y)
    requires forall i :: 0 <= i < |x| ==> z[i] == Either(x[i], y[i])
    ensures |Flat(x)| == |Flat(y)| && Flat(z) == Either(Flat(x), Flat(y))
  {
    FlatSize(x);
    FlatSize(y);
    if x != [] {
      EitherFlat(x[1..], y[1..], z[1..]);
      EitherConcat(x[0], y[0], Flat(x[1..]), Flat(y[1..]));
    }
  }

  lemma EitherConcat(a: Bits, b: Bits, x: Bits, y: Bits)
    requires |a| == |b| && |x| == |y|
    ensures Either(a, b) + Either(x, y) == Either(a + x, b + y)
  {
  }

  lemma OrUnpacked(o: seq<bv8>, m: seq<bv8>)
    requires |o| == |m|
    ensures Unpacked(OrAll(o, m)) == Either(Unpacked(o), Unpacked(m))
  {
    forall i | 0 <= i < |o| ensures Rows(OrAll(o, m))[i] == Either(Rows(o)[i], Rows(m)[i]) {
      OrBits(o[i], m[i]);
    }
    EitherFlat(Rows(o), Rows(m), Rows(OrAll(o, m)));
  }

  lemma EitherOne(x: Bits, i: nat)
    requires i < |x|
    ensures Either(x, Off(|x|)[i := true]) == x[i := true]
  {
  }

  lemma UnpackedConcat(a: seq<bv8>, b: seq<bv8>)
    ensures Unpacked(a + b) == Unpacked(a) + Unpacked(b)
  {
    assert Rows(a + b) == Rows(a) + Rows(b);
    FlatConcat(Rows(a), Rows(b));
  }

  /** The register once the shift's octets are put into its last three. */
  function WithShift(o: seq<bv8>, shift: seq<bv8>): seq<bv8>
    requires |o| == 8 && |shift| == 3
  {
    o[..5] + OrAll(o[5..], shift)
  }

  lemma ShiftSetsBit(o: seq<bv8>, shift: seq<bv8>, i: nat)
    requires |o| == 8 && |shift| == 3 && i < COUNTER && Unpacked(shift) == Off(24)[3 + i := true]
    ensures Unpacked(WithShift(o, shift)) == Unpacked(o)[64 - COUNTER + i := true]
  {
    var front, last := o[..5], o[5..];
    assert o == front + last;
    UnpackedConcat(front, last);
    UnpackedConcat(front, OrAll(last, shift));
    OrUnpacked(last, shift);
    EitherOne(Unpacked(last), 3 + i);
    assert (Unpacked(front) + Unpacked(last))[40 + (3 + i) := true] == Unpacked(front) + Unpacked(last)[3 + i := true];
  }

  /** Sets exactly the counter bit the shift stands for. */
  method SetCounterBit(reg: array<bv8>, shift: bv32, ghost i: nat)
    requires reg.Length == 8 && i < COUNTER && shift == ShiftAt(i)
    modifies reg
    ensures Unpacked(reg[..]) == old(Unpacked(reg[..]))[64 - COUNTER + i := true]
  {
    ghost var was := reg[..];
    var octets := SplitShift(shift, i);
    OrInto(reg, octets);
    ShiftSetsBit(was, octets, i);
  }

  method SplitShift(shift: bv32, ghost i: nat) returns (o: seq<bv8>)
    requires i < COUNTER && shift == ShiftAt(i)
    ensures |o| == 3 && Unpacked(o) == Off(24)[3 + i := true]
  {
    ShiftBits(i);
    o := ShiftOctets(shift);
  }

  method OrInto(reg: array<bv8>, shift: seq<bv8>)
    requires reg.Length == 8 && |shift| == 3
    modifies reg
    ensures reg[..] == WithShift(old(reg[..]), shift)
  {
    reg[5] := reg[5] | shift[0];
    reg[6] := reg[6] | shift[1];
    reg[7] := reg[7] | shift[2];
  }

  // ----- ksnCounter -----

  /** The low 21 bits of three octets. */
  function Joined(a: bv8, b: bv8, c: bv8): bv32
  {
    (((a & 0x1F) as bv32) << 16) | ((b as bv32) << 8) | (c as bv32)
  }

  function KsnCounter(ksn: seq<bv8>): bv32
    requires |ksn| == 10
  {
    Joined(ksn[7], ksn[8], ksn[9])
  }

  lemma JoinedBit(a: bv8, b: bv8, c: bv8, s: bv32)
    ensures Joined(a, b, c) & s != 0 <==> a & ShiftOctets(s)[0] != 0 || b & ShiftOctets(s)[1] != 0 || c & ShiftOctets(s)[2] != 0
  {
  }

  lemma MeetThree(x: seq<Bits>, y: seq<Bits>)
    requires |x| == |y| == 3 && Eights(x) && Eights(y)
    ensures |Flat(x)| == |Flat(y)| == 24
    ensures Meet(Flat(x), Flat(y)) <==> Meet(x[0], y[0]) || Meet(x[1], y[1]) || Meet(x[2], y[2])
  {
    FlatSize(x);
    FlatSize(y);
    forall k, j | 0 <= k < 3 && 0 <= j < 8 ensures Flat(x)[8 * k + j] == x[k][j] && Flat(y)[8 * k + j] == y[k][j] {
      BitAt(x, k, j);
      BitAt(y, k, j);
    }
    if Meet(Flat(x), Flat(y)) {
      var p :| 0 <= p < 24 && Flat(x)[p] && Flat(y)[p];
      assert Flat(x)[8 * (p / 8) + p % 8] == x[p / 8][p % 8];
    }
    forall k | 0 <= k < 3 && Meet(x[k], y[k]) ensures Meet(Flat(x), Flat(y)) {
      var j :| 0 <= j < 8 && x[k][j] && y[k][j];
      assert Flat(x)[8 * k + j] && Flat(y)[8 * k + j];
    }
  }

  lemma MeetOne(x: Bits, i: nat)
    requires i < |x|
    ensures Meet(x, Off(|x|)[i := true]) <==> x[i]
  {
  }

  /** A test of the counter against a shift is a test of one bit. */
  lemma ShiftTests(a: seq<bv8>, m: seq<bv8>, i: nat, on: bool)
    requires |a| == |m| == 3 && i < COUNTER && Unpacked(m) == Off(24)[3 + i := true]
    requires on <==> a[0] & m[0] != 0 || a[1] & m[1] != 0 || a[2] & m[2] != 0
    ensures on == Unpacked(a)[3 + i]
  {
    AndBits(a[0], m[0]);
    AndBits(a[1], m[1]);
    AndBits(a[2], m[2]);
    MeetThree(Rows(a), Rows(m));
    MeetOne(Unpacked(a), 3 + i);
  }

  lemma CounterTests(a: seq<bv8>, i: nat, on: bool)
    requires |a| == 3 && i < COUNTER && on == (Joined(a[0], a[1], a[2]) & ShiftAt(i) != 0)
    ensures on == Unpacked(a)[3 + i]
  {
    ShiftBits(i);
    WordTests(a, ShiftAt(i), i, on);
  }

  lemma WordTests(a: seq<bv8>, s: bv32, i: nat, on: bool)
    requires |a| == 3 && i < COUNTER && Unpacked(ShiftOctets(s)) == Off(24)[3 + i := true]
    requires on == (Joined(a[0], a[1], a[2]) & s != 0)
    ensures on == Unpacked(a)[3 + i]
  {
    JoinedBit(a[0], a[1], a[2], s);
    ShiftTests(a, ShiftOctets(s), i, on);
  }

  /** counter & shift tests counter bit i. */
  lemma CounterBit(ksn: seq<bv8>, i: nat, on: bool)
    requires |ksn| == 10 && i < COUNTER && on == (KsnCounter(ksn) & ShiftAt(i) != 0)
    ensures on == CounterOf(ksn)[i]
  {
    CounterTests(ksn[7..], i, on);
    CounterIsLast(ksn, i);
  }

  lemma CounterIsLast(ksn: seq<bv8>, i: nat)
    requires |ksn| == 10 && i < COUNTER
    ensures CounterOf(ksn)[i] == Unpacked(ksn[7..])[3 + i]
  {
    assert ksn[2..] == ksn[2..7] + ksn[7..];
    UnpackedConcat(ksn[2..7], ksn[7..]);
  }

  // ----- the initial register -----

  lemma CounterCleared(o: seq<bv8>, cleared: seq<bv8>)
    requires |o| == 8 && cleared == o[5 := o[5] & 0xE0][6 := 0][7 := 0]
    ensures Unpacked(cleared) == Unpacked(o)[..64 - COUNTER] + Off(COUNTER)
  {
    TopKept(o[5]);
    var rows := Rows(o);
    assert Rows(cleared) == rows[..5] + [rows[5][..3] + Off(5), Off(8), Off(8)];
    BitsCleared(rows, Rows(cleared));
  }

  /** The rightmost 8 octets of the KSN with the counter cleared. */
  method InitialRegister(ksn: seq<bv8>) returns (reg: array<bv8>)
    requires |ksn| == 10
    ensures fresh(reg) && reg.Length == 8 && Unpacked(reg[..]) == Device(ksn) + Off(COUNTER)
  {
    reg := new bv8[8](i requires 0 <= i < 8 => ksn[2 + i]);
    ghost var was := reg[..];
    assert was == ksn[2..];
    reg[5] := reg[5] & 0xE0;
    reg[6] := 0;
    reg[7] := 0;
    CounterCleared(was, reg[..]);
  }
}
