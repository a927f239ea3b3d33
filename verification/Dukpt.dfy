/** DUKPT key derivation (vault/dukpt.go), the TDES variant of ANSI X9.24-1, over any block
    cipher. The derivation walks the code's counter word and register octets; what it
    computes is stated on the bits they stand for, most significant first. */
module Dukpt {
  import opened Wrappers
  import opened Macs
  import opened Registers

  const MASK: Octets := [0xC0, 0xC0, 0xC0, 0xC0, 0, 0, 0, 0, 0xC0, 0xC0, 0xC0, 0xC0, 0, 0, 0, 0]

  // ----- key generation -----

  function EncRegister(d: Des, key: Octets, reg: Octets): Octets
    requires IsCipher(d) && |key| == 16 && |reg| == 8
  {
    Xor(d.enc(key[..8], Xor(reg, key[8..16])), key[8..16])
  }

  /** One non-reversible step: the left half from the masked key, the right from the key. */
  function Generated(d: Des, key: Octets, reg: Octets): (r: Octets)
    requires IsCipher(d) && |key| == 16 && |reg| == 8
    ensures |r| == 16
  {
    EncRegister(d, Xor(key, MASK), reg) + EncRegister(d, key, reg)
  }

  /** The key so far, the counter bits put into the register so far, and the steps made. */
  datatype Walked = Walked(key: Octets, marks: Bits, steps: nat)

  predicate Fit(w: Walked) { |w.key| == 16 && |w.marks| == COUNTER }

  /** Bit i of the counter, from the left: put it into the register and step, if it is set. */
  function Stepped(d: Des, device: Bits, w: Walked, counter: Bits, i: nat): (r: Walked)
    requires IsCipher(d) && |device| == 64 - COUNTER && Fit(w) && i < COUNTER == |counter|
    ensures Fit(r)
  {
    if !counter[i] then w
    else
      var marks := w.marks[i := true];
      Walked(Generated(d, w.key, Packed(device + marks)), marks, w.steps + 1)
  }

  /** The walk over the first n bits of the counter. */
  function Walk(d: Des, device: Bits, ipek: Octets, counter: Bits, n: nat): (r: Walked)
    requires IsCipher(d) && |device| == 64 - COUNTER && |ipek| == 16 && n <= COUNTER == |counter|
    ensures Fit(r)
  {
    if n == 0 then Walked(ipek, Off(COUNTER), 0)
    else Stepped(d, device, Walk(d, device, ipek, counter, n - 1), counter, n - 1)
  }

  function SessionKey(d: Des, ipek: Octets, ksn: Octets): Octets
    requires IsCipher(d) && |ipek| == 16 && |ksn| == 10
  {
    Walk(d, Device(ksn), ipek, CounterOf(ksn), COUNTER).key
  }

  datatype Error = BadLength

  method DeriveSessionKey(d: Des, ipek: Octets, ksn: Octets) returns (key: Result<Octets, Error>)
    requires IsCipher(d)
    ensures if |ipek| == 16 && |ksn| == 10 then key == Ok(SessionKey(d, ipek, ksn)) else key == Err(BadLength)
  {
    if |ipek| != 16 || |ksn| != 10 { return Err(BadLength); }
    var counter := KsnCounter(ksn);
    var reg := InitialRegister(ksn);
    var curKey := ipek;
    ghost var i := 0;
    var shift: bv32 := 0x100000;
    while shift > 0
      invariant i <= COUNTER && shift == ShiftAt(i)
      invariant reg.Length == 8 && At(d, ksn, ipek, i, curKey, reg[..])
      decreases COUNTER - i
    {
      curKey := WalkBit(d, ksn, ipek, counter, shift, reg, curKey, i);
      ShiftStep(i);
      shift, i := shift >> 1, i + 1;
    }
    return Ok(curKey);
  }

  /** The key and the register once the first i counter bits are walked. */
  ghost predicate At(d: Des, ksn: Octets, ipek: Octets, i: nat, key: Octets, reg: Octets)
    requires IsCipher(d) && |ksn| == 10 && |ipek| == 16 && i <= COUNTER
  {
    var w := Walk(d, Device(ksn), ipek, CounterOf(ksn), i);
    key == w.key && Unpacked(reg) == Device(ksn) + w.marks
  }

  /** The loop's body, at counter bit i. */
  method WalkBit(d: Des, ghost ksn: Octets, ghost ipek: Octets, counter: bv32, shift: bv32, reg: array<bv8>, key: Octets,
                 ghost i: nat) returns (next: Octets)
    requires IsCipher(d) && |ksn| == 10 && |ipek| == 16 && reg.Length == 8
    requires counter == KsnCounter(ksn) && i < COUNTER && shift == ShiftAt(i) && At(d, ksn, ipek, i, key, reg[..])
    modifies reg
    ensures At(d, ksn, ipek, i + 1, next, reg[..])
  {
    var on := HasBit(ksn, counter, shift, i);
    if !on { return key; }
    next := PutBit(d, ksn, ipek, shift, reg, key, i);
  }

  method HasBit(ghost ksn: Octets, counter: bv32, shift: bv32, ghost i: nat) returns (on: bool)
    requires |ksn| == 10 && counter == KsnCounter(ksn) && i < COUNTER && shift == ShiftAt(i)
    ensures on == CounterOf(ksn)[i]
  {
    on := counter & shift != 0;
    CounterBit(ksn, i, on);
  }

  method PutBit(d: Des, ghost ksn: Octets, ghost ipek: Octets, shift: bv32, reg: array<bv8>, key: Octets, ghost i: nat)
    returns (next: Octets)
    requires IsCipher(d) && |ksn| == 10 && |ipek| == 16 && reg.Length == 8
    requires i < COUNTER && shift == ShiftAt(i) && At(d, ksn, ipek, i, key, reg[..]) && CounterOf(ksn)[i]
    modifies reg
    ensures At(d, ksn, ipek, i + 1, next, reg[..])
  {
    ghost var w := Walk(d, Device(ksn), ipek, CounterOf(ksn), i);
    SetCounterBit(reg, shift, i);
    Marked(Device(ksn), w.marks, i, reg[..]);
    next := Generated(d, key, reg[..]);
  }

  lemma Marked(device: Bits, marks: Bits, i: nat, reg: Octets)
    requires |device| == 64 - COUNTER && i < COUNTER == |marks| && Unpacked(reg) == (device + marks)[64 - COUNTER + i := true]
    ensures Unpacked(reg) == device + marks[i := true] && reg == Packed(device + marks[i := true])
  {
    assert (device + marks)[|device| + i := true] == device + marks[i := true];
    PackedUnpacked(reg);
  }

  // ----- the theorem -----

  /** The register holds the counter's first n bits and nothing else. */
  lemma {:induction false} WalkSets(d: Des, device: Bits, ipek: Octets, counter: Bits, n: nat)
    requires IsCipher(d) && |device| == 64 - COUNTER && |ipek| == 16 && n <= COUNTER == |counter|
    ensures Walk(d, device, ipek, counter, n).marks == counter[..n] + Off(COUNTER)[n..]
  {
    if n > 0 {
      WalkSets(d, device, ipek, counter, n - 1);
      assert counter[..n] == counter[..n - 1] + [counter[n - 1]];
      assert Off(COUNTER)[n - 1..] == [false] + Off(COUNTER)[n..];
    }
  }

  /** The walk looks only at the bits it has passed. */
  lemma {:induction false} WalkPrefix(d: Des, device: Bits, ipek: Octets, a: Bits, b: Bits, n: nat)
    requires IsCipher(d) && |device| == 64 - COUNTER && |ipek| == 16 && n <= COUNTER == |a| == |b|
    requires a[..n] == b[..n]
    ensures Walk(d, device, ipek, a, n) == Walk(d, device, ipek, b, n)
  {
    if n > 0 {
      assert a[..n - 1] == a[..n][..n - 1] == b[..n - 1];
      assert a[n - 1] == a[..n][n - 1] == b[..n][n - 1];
      WalkPrefix(d, device, ipek, a, b, n - 1);
    }
  }

  /** Clear bits take no step. */
  lemma {:induction false} WalkRests(d: Des, device: Bits, ipek: Octets, c: Bits, m: nat, n: nat)
    requires IsCipher(d) && |device| == 64 - COUNTER && |ipek| == 16 && m <= n <= COUNTER == |c|
    requires forall i :: m <= i < n ==> !c[i]
    ensures Walk(d, device, ipek, c, n) == Walk(d, device, ipek, c, m)
  {
    if m < n {
      WalkRests(d, device, ipek, c, m, n - 1);
    }
  }

  /** t is the counter's lowest set bit. */
  predicate Lowest(c: Bits, t: nat) { t < |c| && c[t] && forall i :: t < i < |c| ==> !c[i] }

  lemma OneMoreStep(d: Des, device: Bits, ipek: Octets, c: Bits, t: nat)
    requires IsCipher(d) && |device| == 64 - COUNTER && |ipek| == 16 && COUNTER == |c| && Lowest(c, t)
    ensures var all, most := Walk(d, device, ipek, c, COUNTER), Walk(d, device, ipek, c[t := false], COUNTER);
            all.key == Generated(d, most.key, Packed(device + c)) && all.steps == most.steps + 1
  {
    var cut := c[t := false];
    WalkRests(d, device, ipek, c, t + 1, COUNTER);
    WalkRests(d, device, ipek, cut, t, COUNTER);
    WalkPrefix(d, device, ipek, c, cut, t);
    WalkSets(d, device, ipek, c, t + 1);
    assert c[..t + 1] + Off(COUNTER)[t + 1..] == c;
  }

  function SetBits(c: Bits): nat
  {
    if c == [] then 0 else SetBits(c[..|c| - 1]) + if c[|c| - 1] then 1 else 0
  }

  lemma {:induction false} StepsAreSetBits(d: Des, device: Bits, ipek: Octets, c: Bits, n: nat)
    requires IsCipher(d) && |device| == 64 - COUNTER && |ipek| == 16 && n <= COUNTER == |c|
    ensures Walk(d, device, ipek, c, n).steps == SetBits(c[..n])
  {
    if n > 0 {
      StepsAreSetBits(d, device, ipek, c, n - 1);
      assert c[..n][..n - 1] == c[..n - 1];
    }
  }

  /** The key for a counter is one generation step from the key for the counter with its
      lowest set bit cleared, under a register that is the KSN's rightmost 8 octets. */
  lemma SessionKeyIsOneStep(d: Des, ipek: Octets, ksn: Octets, ksn': Octets, t: nat)
    requires IsCipher(d) && |ipek| == 16 && |ksn| == 10 && |ksn'| == 10 && Lowest(CounterOf(ksn), t)
    requires Device(ksn') == Device(ksn) && CounterOf(ksn') == CounterOf(ksn)[t := false]
    ensures SessionKey(d, ipek, ksn) == Generated(d, SessionKey(d, ipek, ksn'), ksn[2..])
  {
    OneMoreStep(d, Device(ksn), ipek, CounterOf(ksn), t);
    assert Device(ksn) + CounterOf(ksn) == Unpacked(ksn[2..]);
    PackedUnpacked(ksn[2..]);
  }

  /** The number of steps is the number of set counter bits; with none the session key is
      the initial key. */
  lemma SessionKeySteps(d: Des, ipek: Octets, ksn: Octets)
    requires IsCipher(d) && |ipek| == 16 && |ksn| == 10
    ensures Walk(d, Device(ksn), ipek, CounterOf(ksn), COUNTER).steps == SetBits(CounterOf(ksn))
    ensures CounterOf(ksn) == Off(COUNTER) ==> SessionKey(d, ipek, ksn) == ipek
  {
    var c := CounterOf(ksn);
    StepsAreSetBits(d, Device(ksn), ipek, c, COUNTER);
    assert c[..COUNTER] == c;
    if c == Off(COUNTER) { WalkRests(d, Device(ksn), ipek, c, 0, COUNTER); }
  }

  // ----- the initial key -----

  /** DeriveIPEK: the leftmost 8 octets of the KSN, counter cleared, under the BDK (K1‖K2
      as K1‖K2‖K1) and under the masked BDK. */
  function Ipek(d: Des, bdk: Octets, ksn: Octets): Result<Octets, Error>
  {
    if |bdk| != 16 || |ksn| != 10 then Err(BadLength)
    else
      var base, masked := ksn[..7] + [ksn[7] & 0xE0], Xor(bdk, MASK);
      Ok(Enc(d, Three(bdk[..8], bdk[8..], bdk[..8]), base) + Enc(d, Three(masked[..8], masked[8..], masked[..8]), base))
  }

  lemma TopBits(a: bv8, b: bv8)
    requires BitsOf(a)[..3] == BitsOf(b)[..3]
    ensures a & 0xE0 == b & 0xE0
  {
    assert BitsOf(a)[..3][0] == BitsOf(b)[..3][0] && BitsOf(a)[..3][1] == BitsOf(b)[..3][1] && BitsOf(a)[..3][2] == BitsOf(b)[..3][2];
    ThreeBits(a, b);
  }

  lemma ThreeBits(a: bv8, b: bv8)
    requires (a & 0x80 != 0) == (b & 0x80 != 0) && (a & 0x40 != 0) == (b & 0x40 != 0) && (a & 0x20 != 0) == (b & 0x20 != 0)
    ensures a & 0xE0 == b & 0xE0
  {
  }

  lemma DeviceTop(ksn: Octets)
    requires |ksn| == 10
    ensures BitsOf(ksn[7])[..3] == Device(ksn)[40..43]
  {
    var rows := Rows(ksn[2..]);
    forall j | 0 <= j < 3 ensures BitsOf(ksn[7])[j] == Device(ksn)[40 + j] {
      BitAt(rows, 5, j);
    }
  }

  /** The initial key is the same for every counter value of a device. */
  lemma IpekIgnoresCounter(d: Des, bdk: Octets, ksn: Octets, ksn': Octets)
    requires |ksn| == 10 && |ksn'| == 10 && ksn[..7] == ksn'[..7] && Device(ksn) == Device(ksn')
    ensures Ipek(d, bdk, ksn) == Ipek(d, bdk, ksn')
  {
    DeviceTop(ksn);
    DeviceTop(ksn');
    TopBits(ksn[7], ksn'[7]);
  }
}
