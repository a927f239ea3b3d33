/** Positional numerals shared by the codecs: big-endian octets and ASCII decimal. */
module Numerals {

  type byte = x: int | 0 <= x < 256

  function Pow(b: nat, n: nat): (r: nat)
    ensures b > 0 ==> r > 0
  {
    if n == 0 then 1 else b * Pow(b, n - 1)
  }

  lemma {:induction false} PowMonotone(b: nat, m: nat, n: nat)
    requires b > 0 && m <= n
    ensures Pow(b, m) <= Pow(b, n)
  {
    if m < n {
      PowMonotone(b, m, n - 1);
      assert Pow(b, n - 1) <= b * Pow(b, n - 1);
    }
  }

  lemma SliceOfSlice<T>(s: seq<T>, off: nat, n: nat, a: nat, b: nat)
    requires a <= b <= n && off + n <= |s|
    ensures s[off..off + n][a..b] == s[off + a..off + b]
  {
    var l, r := s[off..off + n][a..b], s[off + a..off + b];
    assert |l| == |r| && forall i :: 0 <= i < |l| ==> l[i] == s[off + a + i] == r[i];
  }

  /** b followed by c stands at off: so does b, and c behind it. */
  lemma PartsOf<T>(w: seq<T>, off: nat, b: seq<T>, c: seq<T>)
    requires off + |b + c| <= |w| && w[off..off + |b + c|] == b + c
    ensures w[off..off + |b|] == b
    ensures w[off + |b|..off + |b| + |c|] == c
  {
    SliceOfSlice(w, off, |b + c|, 0, |b|);
    SliceOfSlice(w, off, |b + c|, |b|, |b + c|);
    assert (b + c)[0..|b|] == b;
    assert (b + c)[|b|..|b + c|] == c;
  }

  lemma SplitLast<T>(s: seq<T>)
    requires s != []
    ensures s == s[..|s| - 1] + [s[|s| - 1]]
  {
  }

  lemma DropTake<T>(s: seq<T>, a: nat, b: nat)
    requires a <= b <= |s|
    ensures s[a..][..b - a] == s[a..b]
  {
  }

  lemma DropDrop<T>(s: seq<T>, a: nat, b: nat)
    requires a <= b <= |s|
    ensures s[a..][b - a..] == s[b..]
  {
  }

  lemma MoveHead<T>(a: seq<T>, s: seq<T>)
    requires s != []
    ensures a + s == (a + [s[0]]) + s[1..]
  {
  }

  lemma ConcatAssoc<T>(a: seq<T>, b: seq<T>, c: seq<T>)
    ensures a + b + c == a + (b + c)
  {
  }

  // ----- big-endian octets -----

  /** The low `w` octets of n, most significant first (higher octets are dropped). */
  function ToBE(n: nat, w: nat): (s: seq<byte>)
    ensures |s| == w
  {
    if w == 0 then [] else ToBE(n / 256, w - 1) + [n % 256]
  }

  function FromBE(s: seq<byte>): (n: nat)
  {
    if s == [] then 0 else FromBE(s[..|s| - 1]) * 256 + s[|s| - 1]
  }

  lemma {:induction false} FromBEToBE(n: nat, w: nat)
    requires n < Pow(256, w)
    ensures FromBE(ToBE(n, w)) == n
  {
    if w > 0 {
      FromBEToBE(n / 256, w - 1);
      var s := ToBE(n, w);
      assert s[..|s| - 1] == ToBE(n / 256, w - 1);
    }
  }

  lemma {:induction false} ToBEFromBE(s: seq<byte>)
    ensures ToBE(FromBE(s), |s|) == s
    ensures FromBE(s) < Pow(256, |s|)
  {
    if s != [] {
      ToBEFromBE(s[..|s| - 1]);
    }
  }

  // ----- ASCII decimal -----

  predicate IsDigit(c: byte) { 48 <= c <= 57 }

  predicate AllDigits(s: seq<byte>) { forall i :: 0 <= i < |s| ==> IsDigit(s[i]) }

  /** strconv.FormatUint(n, 10) */
  function Itoa(n: nat): (s: seq<byte>)
    ensures |s| >= 1 && AllDigits(s)
  {
    if n < 10 then [48 + n] else Itoa(n / 10) + [48 + n % 10]
  }

  /** The number an ASCII digit string denotes. */
  function Atoi(s: seq<byte>): (n: nat)
    requires AllDigits(s)
  {
    if s == [] then 0 else Atoi(s[..|s| - 1]) * 10 + (s[|s| - 1] - 48)
  }

  function Repeat(c: byte, n: nat): (s: seq<byte>)
    ensures |s| == n && forall i :: 0 <= i < n ==> s[i] == c
  {
    seq(n, _ => c)
  }

  lemma {:induction false} AtoiItoa(n: nat)
    ensures Atoi(Itoa(n)) == n
  {
    if n >= 10 {
      AtoiItoa(n / 10);
      assert Itoa(n)[..|Itoa(n)| - 1] == Itoa(n / 10);
    }
  }

  lemma {:induction false} AtoiBound(s: seq<byte>)
    requires AllDigits(s)
    ensures Atoi(s) < Pow(10, |s|)
  {
    if s != [] {
      AtoiBound(s[..|s| - 1]);
    }
  }

  /** Itoa uses the fewest digits: it fits a width exactly when the number does. */
  lemma {:induction false} ItoaWidth(n: nat, w: nat)
    requires w >= 1
    ensures |Itoa(n)| <= w <==> n < Pow(10, w)
  {
    if n < 10 {
      PowMonotone(10, 1, w);
      assert Pow(10, 1) == 10 * Pow(10, 0);
    } else if w == 1 {
      assert Pow(10, 1) == 10 * Pow(10, 0);
    } else {
      ItoaWidth(n / 10, w - 1);
    }
  }

  lemma {:induction false} AtoiPadded(g: nat, s: seq<byte>)
    requires AllDigits(s)
    ensures AllDigits(Repeat(48, g) + s) && Atoi(Repeat(48, g) + s) == Atoi(s)
  {
    var t := Repeat(48, g) + s;
    if s == [] {
      if g > 0 {
        AtoiPadded(g - 1, s);
        assert t[..|t| - 1] == Repeat(48, g - 1) + [];
      }
    } else {
      AtoiPadded(g, s[..|s| - 1]);
      assert t[..|t| - 1] == Repeat(48, g) + s[..|s| - 1];
    }
  }
}
