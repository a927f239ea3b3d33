/** ISO/IEC 9797-1 MAC algorithms 1 and 3 with padding methods 1 and 2, in software
    (vault/mac.go) and composed from the 3DES primitives of a token
    (adapters/pkcs11/pkcs11.go). DES itself is any cipher whose decryption inverts it. */
module Macs {
  import opened Wrappers

  type Octets = seq<bv8>

  const BLOCK := 8

  // ----- ciphers -----

  /** Single DES: key, block to block. */
  datatype Des = Des(enc: (Octets, Octets) -> Octets, dec: (Octets, Octets) -> Octets)

  ghost predicate IsCipher(d: Des)
  {
    && (forall k, b :: |d.enc(k, b)| == BLOCK && |d.dec(k, b)| == BLOCK)
    && (forall k, b :: |b| == BLOCK ==> d.dec(k, d.enc(k, b)) == b)
  }

  /** A single-DES key, or three for encrypt-decrypt-encrypt. */
  datatype Key = One(k: Octets) | Three(k1: Octets, k2: Octets, k3: Octets)

  function Enc(d: Des, key: Key, b: Octets): Octets
  {
    match key
    case One(k) => d.enc(k, b)
    case Three(k1, k2, k3) => d.enc(k3, d.dec(k2, d.enc(k1, b)))
  }

  function Xor(a: Octets, b: Octets): (r: Octets)
    requires |a| <= |b|
    ensures |r| == |a|
  {
    seq(|a|, i requires 0 <= i < |a| => a[i] ^ b[i])
  }

  lemma XorCommutes(a: Octets, b: Octets)
    requires |a| == |b|
    ensures Xor(a, b) == Xor(b, a)
  {
    forall i | 0 <= i < |a| ensures Xor(a, b)[i] == Xor(b, a)[i] {
      assert a[i] ^ b[i] == b[i] ^ a[i];
    }
  }

  method XorBlock(a: Octets, b: Octets) returns (r: Octets)
    requires |a| >= BLOCK && |b| >= BLOCK
    ensures r == Xor(a[..BLOCK], b)
  {
    var out := new bv8[BLOCK](_ => 0);
    for i := 0 to BLOCK
      invariant forall j :: 0 <= j < i ==> out[j] == a[j] ^ b[j]
    {
      out[i] := a[i] ^ b[i];
    }
    r := out[..];
  }

  // ----- padding -----

  datatype Padding = Pad1 | Pad2

  function Zeros(n: nat): (z: Octets) { seq(n, _ => 0) }

  /** The fewest zero octets that fill the last block. */
  function Gap(n: nat): (g: nat)
    ensures g < BLOCK && (n + g) % BLOCK == 0
  {
    (BLOCK - n % BLOCK) % BLOCK
  }

  function Padded(pad: Padding, data: Octets): (r: Octets)
  {
    match pad
    case Pad1 => if data == [] then Zeros(BLOCK) else data + Zeros(Gap(|data|))
    case Pad2 => data + [0x80] + Zeros(Gap(|data| + 1))
  }

  lemma PaddedFillsBlocks(pad: Padding, data: Octets)
    ensures var p := Padded(pad, data); |p| >= BLOCK && |p| % BLOCK == 0 && |p| - |data| <= BLOCK && data <= p
  {
  }

  lemma Pad2Marks(a: Octets)
    ensures var p := Padded(Pad2, a); a <= p && |a| < |p| && p[|a|] == 0x80 && forall i :: |a| < i < |p| ==> p[i] == 0
  {
  }

  /** Padding method 2 can be undone: no two messages pad to the same blocks. */
  lemma Pad2Injective(a: Octets, b: Octets)
    requires Padded(Pad2, a) == Padded(Pad2, b)
    ensures a == b
  {
    Pad2Marks(a);
    Pad2Marks(b);
    assert |a| == |b|;
  }

  /** Blocks a message of n octets takes under method 1; the empty message takes one. */
  function BlocksOf(n: nat): nat { if n == 0 then 1 else (n + BLOCK - 1) / BLOCK }

  lemma Pad1Is(a: Octets)
    ensures Padded(Pad1, a) == a + Zeros(BLOCK * BlocksOf(|a|) - |a|)
  {
  }

  /** Method 1 cannot: two messages pad alike exactly when they take as many blocks and one
      is the other with zero octets behind it. */
  lemma Pad1Alike(a: Octets, b: Octets)
    requires |a| <= |b|
    ensures Padded(Pad1, a) == Padded(Pad1, b) <==> BlocksOf(|a|) == BlocksOf(|b|) && b == a + Zeros(|b| - |a|)
  {
    Pad1Is(a);
    Pad1Is(b);
    var n := BLOCK * BlocksOf(|a|);
    if BlocksOf(|a|) == BlocksOf(|b|) {
      ZerosBehind(a, b, n);
    } else {
      Longer(|a|, |b|);
    }
  }

  lemma Longer(m: nat, n: nat)
    ensures BLOCK * BlocksOf(m) >= m && (BlocksOf(m) != BlocksOf(n) ==> BLOCK * BlocksOf(m) != BLOCK * BlocksOf(n))
  {
  }

  lemma ZerosBehind(a: Octets, b: Octets, n: nat)
    requires |a| <= |b| <= n
    ensures a + Zeros(n - |a|) == b + Zeros(n - |b|) <==> b == a + Zeros(|b| - |a|)
  {
    var x, y := a + Zeros(n - |a|), b + Zeros(n - |b|);
    assert y[..|b|] == b && x[..|b|] == a + Zeros(|b| - |a|);
    assert Zeros(n - |a|) == Zeros(|b| - |a|) + Zeros(n - |b|);
    assert a + Zeros(|b| - |a|) + Zeros(n - |b|) == x;
  }

  lemma Pad1NotInjective()
    ensures Padded(Pad1, [1]) == Padded(Pad1, [1, 0])
  {
    Pad1Alike([1], [1, 0]);
    assert [1, 0] == [1] + Zeros(1);
  }

  method FillWithZeros(data: Octets) returns (out: Octets)
    ensures out == data + Zeros(Gap(|data|))
  {
    out := data;
    ghost var n := 0;
    while |out| % BLOCK != 0
      invariant 0 <= n <= Gap(|data|) && out == data + Zeros(n)
      decreases Gap(|data|) - n
    {
      FillStep(|data|, n);
      out := out + [0x00];
      n := n + 1;
      assert Zeros(n) == Zeros(n - 1) + [0];
    }
    FillEnds(|data|, n);
  }

  lemma FillStep(len: nat, n: nat)
    requires n <= Gap(len) && (len + n) % BLOCK != 0
    ensures n < Gap(len)
  {
  }

  lemma FillEnds(len: nat, n: nat)
    requires n <= Gap(len) && (len + n) % BLOCK == 0
    ensures n == Gap(len)
  {
  }

  /** vault.applyPadding */
  method ApplyPadding(pad: Padding, data: Octets) returns (out: Octets)
    ensures out == Padded(pad, data)
  {
    match pad
    case Pad2 =>
      out := FillWithZeros(data + [0x80]);
    case Pad1 =>
      if |data| == 0 { return Zeros(BLOCK); }
      if |data| % BLOCK == 0 {
        assert Gap(|data|) == 0;
        assert data + Zeros(0) == data;
        return data;
      }
      out := FillWithZeros(data);
  }

  /** pkcs11.iso9797Pad */
  method Iso9797Pad(pad: Padding, data: Octets) returns (out: Octets)
    ensures out == Padded(pad, data)
  {
    match pad
    case Pad2 =>
      out := FillWithZeros(data + [0x80]);
    case Pad1 =>
      if |data| == 0 { return Zeros(BLOCK); }
      out := FillWithZeros(data);
  }

  // ----- CBC -----

  predicate Blocks(data: Octets) { |data| % BLOCK == 0 }

  /** The last block of a zero-IV CBC encryption. */
  function CbcMac(d: Des, key: Key, data: Octets): Octets
    requires Blocks(data)
    decreases |data|
  {
    if data == [] then Zeros(BLOCK)
    else
      var n := |data| - BLOCK;
      Enc(d, key, Chain(CbcMac(d, key, data[..n]), data[n..]))
  }

  /** A block XORed into the chaining value. */
  function Chain(x: Octets, block: Octets): Octets
  {
    if |x| <= |block| then Xor(x, block) else x
  }

  /** The whole zero-IV CBC ciphertext, as the token returns it. */
  function CbcCipher(d: Des, key: Key, data: Octets): Octets
    requires Blocks(data)
    decreases |data|
  {
    if data == [] then []
    else
      var n := |data| - BLOCK;
      var before := CbcCipher(d, key, data[..n]);
      var x := if |before| >= BLOCK then before[|before| - BLOCK..] else Zeros(BLOCK);
      before + Enc(d, key, Chain(x, data[n..]))
  }

  lemma {:induction false} CipherEndsInMac(d: Des, key: Key, data: Octets)
    requires IsCipher(d) && Blocks(data)
    ensures |CbcCipher(d, key, data)| == |data|
    ensures data != [] ==> CbcCipher(d, key, data)[|data| - BLOCK..] == CbcMac(d, key, data)
    decreases |data|
  {
    if data != [] {
      CipherEndsInMac(d, key, data[..|data| - BLOCK]);
    }
  }

  lemma MacIsBlock(d: Des, key: Key, data: Octets)
    requires IsCipher(d) && Blocks(data)
    ensures |CbcMac(d, key, data)| == BLOCK
  {
  }

  /** vault.cbcMAC */
  method CbcMacLoop(d: Des, key: Key, data: Octets) returns (x: Octets)
    requires IsCipher(d) && Blocks(data)
    ensures x == CbcMac(d, key, data)
  {
    x := Zeros(BLOCK);
    var i := 0;
    assert data[..0] == [];
    while i < |data|
      invariant 0 <= i <= |data| && i % BLOCK == 0
      invariant x == CbcMac(d, key, data[..i]) && |x| == BLOCK
      decreases |data| - i
    {
      NextBlock(|data|, i);
      CbcStep(d, key, data, i);
      x := Enc(d, key, Xor(x, data[i..i + BLOCK]));
      i := i + BLOCK;
    }
    assert data[..|data|] == data;
  }

  lemma NextBlock(n: nat, i: nat)
    requires n % BLOCK == 0 && i % BLOCK == 0 && i < n
    ensures i + BLOCK <= n && (i + BLOCK) % BLOCK == 0
  {
  }

  lemma CbcStep(d: Des, key: Key, data: Octets, i: nat)
    requires IsCipher(d) && i % BLOCK == 0 && (i + BLOCK) % BLOCK == 0 && i + BLOCK <= |data|
    ensures CbcMac(d, key, data[..i + BLOCK]) == Enc(d, key, Chain(CbcMac(d, key, data[..i]), data[i..i + BLOCK]))
    ensures |CbcMac(d, key, data[..i + BLOCK])| == BLOCK
  {
    var next := data[..i + BLOCK];
    assert next[..i] == data[..i] && next[i..] == data[i..i + BLOCK];
    MacIsBlock(d, key, next);
  }

  /** K‖K‖K makes encrypt-decrypt-encrypt single DES. */
  lemma TripleCollapses(d: Des, k: Octets, b: Octets)
    requires IsCipher(d) && |b| == BLOCK
    ensures Enc(d, Three(k, k, k), b) == Enc(d, One(k), b)
  {
  }

  lemma {:induction false} MacCollapses(d: Des, k: Octets, data: Octets)
    requires IsCipher(d) && Blocks(data)
    ensures CbcMac(d, Three(k, k, k), data) == CbcMac(d, One(k), data)
    decreases |data|
  {
    if data != [] {
      var n := |data| - BLOCK;
      MacCollapses(d, k, data[..n]);
      MacIsBlock(d, One(k), data[..n]);
      TripleCollapses(d, k, Chain(CbcMac(d, One(k), data[..n]), data[n..]));
    }
  }

  // ----- the two implementations -----

  datatype Algorithm = Alg1 | Alg3

  datatype Error = BadKeyLength | UnknownKey | BadMacLength

  /** vault.GenerateMAC */
  function SoftMac(d: Des, alg: Algorithm, pad: Padding, key: Octets, data: Octets): Result<Octets, Error>
  {
    var p := Padded(pad, data);
    match alg
    case Alg1 => if |key| != 8 then Err(BadKeyLength) else Ok(CbcMac(d, One(key), p))
    case Alg3 =>
      if |key| != 16 then Err(BadKeyLength)
      else Ok(d.enc(key[..8], d.dec(key[8..], CbcMac(d, One(key[..8]), p))))
  }

  /** The token's keys, by label. */
  type Token = map<string, Key>

  /** pkcs11.Vault.GenerateMAC: CBC on the token, and for algorithm 3 one last 3DES block. */
  method TokenMac(d: Des, token: Token, name: string, suffix: string, alg: Algorithm, pad: Padding, data: Octets)
    returns (mac: Result<Octets, Error>)
    requires IsCipher(d)
    ensures mac == TokenMacSpec(d, token, name, suffix, alg, pad, data)
  {
    var padded := Iso9797Pad(pad, data);
    PaddedFillsBlocks(pad, data);
    match alg
    case Alg1 =>
      if name !in token { return Err(UnknownKey); }
      var last := LastCipherBlock(d, token[name], padded);
      return Ok(last);
    case Alg3 =>
      if name !in token { return Err(UnknownKey); }
      if name + suffix !in token { return Err(UnknownKey); }
      var r := TokenRetail(d, token[name], token[name + suffix], padded);
      return Ok(r);
  }

  /** All but the last block through CBC, and the last, chained in, through one 3DES. */
  method TokenRetail(d: Des, last: Key, prefix: Key, padded: Octets) returns (mac: Octets)
    requires IsCipher(d) && Blocks(padded) && padded != []
    ensures mac == Retail(d, last, prefix, padded)
  {
    var cut := LastBlockAt(padded);
    var prefixMac := PrefixMac(d, prefix, padded[..cut]);
    var x := ChainBlock(padded[cut..], prefixMac);
    mac := Enc(d, last, x);
  }

  /** Zeros when there is only the one block. */
  method PrefixMac(d: Des, prefix: Key, data: Octets) returns (mac: Octets)
    requires IsCipher(d) && Blocks(data)
    ensures mac == CbcMac(d, prefix, data) && |mac| == BLOCK
  {
    mac := Zeros(BLOCK);
    if data != [] { mac := LastCipherBlock(d, prefix, data); }
    MacIsBlock(d, prefix, data);
  }

  method ChainBlock(block: Octets, x: Octets) returns (r: Octets)
    requires |block| == BLOCK == |x|
    ensures r == Chain(block, x)
  {
    r := XorBlock(block, x);
    assert block[..BLOCK] == block;
  }

  method LastBlockAt(padded: Octets) returns (cut: nat)
    requires Blocks(padded) && padded != []
    ensures cut == |padded| - BLOCK && Blocks(padded[..cut])
  {
    var n := |padded| / BLOCK;
    cut := BLOCK * (n - 1);
  }

  function Retail(d: Des, last: Key, prefix: Key, p: Octets): Octets
    requires Blocks(p) && p != []
  {
    var n := |p| - BLOCK;
    Enc(d, last, Chain(p[n..], CbcMac(d, prefix, p[..n])))
  }

  method LastCipherBlock(d: Des, key: Key, padded: Octets) returns (b: Octets)
    requires IsCipher(d) && Blocks(padded) && padded != []
    ensures b == CbcMac(d, key, padded)
  {
    CipherEndsInMac(d, key, padded);
    var ct := CbcCipher(d, key, padded);
    b := ct[|ct| - BLOCK..];
  }

  function TokenMacSpec(d: Des, token: Token, name: string, suffix: string, alg: Algorithm, pad: Padding, data: Octets): Result<Octets, Error>
  {
    var p := Padded(pad, data);
    match alg
    case Alg1 => if name !in token then Err(UnknownKey) else Ok(CbcMac(d, token[name], p))
    case Alg3 =>
      if name !in token || name + suffix !in token then Err(UnknownKey)
      else Ok(Retail(d, token[name], token[name + suffix], p))
  }

  /** The token holds the software key in the layouts the adapter asks for: K‖K‖K for
      algorithm 1, and for algorithm 3 K1‖K2‖K1 with K1‖K1‖K1 under the suffixed label. */
  predicate Provisioned(token: Token, name: string, suffix: string, alg: Algorithm, key: Octets)
  {
    match alg
    case Alg1 => |key| == 8 && name in token && token[name] == Three(key, key, key)
    case Alg3 =>
      && |key| == 16 && name in token && name + suffix in token
      && token[name] == Three(key[..8], key[8..], key[..8])
      && token[name + suffix] == Three(key[..8], key[..8], key[..8])
  }

  /** For every message, padding and key the token's MAC is the software MAC. */
  lemma TokenMacIsSoftware(d: Des, token: Token, name: string, suffix: string, alg: Algorithm, pad: Padding, key: Octets, data: Octets)
    requires IsCipher(d) && Provisioned(token, name, suffix, alg, key)
    ensures TokenMacSpec(d, token, name, suffix, alg, pad, data) == SoftMac(d, alg, pad, key, data)
    ensures SoftMac(d, alg, pad, key, data).Ok?
  {
    var p := Padded(pad, data);
    PaddedFillsBlocks(pad, data);
    match alg
    case Alg1 => MacCollapses(d, key, p);
    case Alg3 => RetailIsAlg3(d, key[..8], key[8..], p);
  }

  lemma RetailIsAlg3(d: Des, k1: Octets, k2: Octets, p: Octets)
    requires IsCipher(d) && Blocks(p) && p != []
    ensures Retail(d, Three(k1, k2, k1), Three(k1, k1, k1), p) == d.enc(k1, d.dec(k2, CbcMac(d, One(k1), p)))
  {
    var n := |p| - BLOCK;
    var c := CbcMac(d, One(k1), p[..n]);
    MacCollapses(d, k1, p[..n]);
    MacIsBlock(d, One(k1), p[..n]);
    ChainCommutes(p[n..], c);
    assert CbcMac(d, One(k1), p) == Enc(d, One(k1), Chain(c, p[n..]));
  }

  lemma ChainCommutes(a: Octets, b: Octets)
    requires |a| == |b|
    ensures Chain(a, b) == Chain(b, a)
  {
    XorCommutes(a, b);
  }

  /** VerifyMAC: a non-empty MAC of at most a block is accepted exactly if it is the
      leftmost part of the full one. */
  method VerifyMac(d: Des, alg: Algorithm, pad: Padding, key: Octets, data: Octets, mac: Octets) returns (r: Result<bool, Error>)
    requires IsCipher(d)
    ensures var full := SoftMac(d, alg, pad, key, data);
            && (full.Err? ==> r == Err(full.error))
            && (full.Ok? ==> (r == Err(BadMacLength) <==> mac == [] || |mac| > BLOCK))
            && (r == Ok(true) <==> full.Ok? && mac != [] && mac <= full.value)
  {
    var full := SoftMac(d, alg, pad, key, data);
    if full.Err? { return Err(full.error); }
    MacIsBlock(d, One(if alg.Alg1? then key else key[..8]), Padded(pad, data));
    if |mac| == 0 || |mac| > |full.value| { return Err(BadMacLength); }
    return Ok(full.value[..|mac|] == mac);
  }
}
