/** Exact fixed-point amounts (iso8583/decimal.go) and their text form
    (render/xmlio/xmlio.go, parseDecimal), under 64-bit wrap-around. */
module Decimals {
  import opened Wrappers
  import opened Numerals

  const MIN64: int := -0x8000_0000_0000_0000
  const MAX64: int := 0x7fff_ffff_ffff_ffff
  const TWO64: int := 0x1_0000_0000_0000_0000
  const MAX_SCALE: nat := 18

  predicate IsInt64(x: int) { MIN64 <= x <= MAX64 }

  type int64 = x: int | -0x8000_0000_0000_0000 <= x <= 0x7fff_ffff_ffff_ffff
  type uint8 = x: int | 0 <= x < 256

  /** The int64 congruent to x modulo 2^64: what Go's + and * leave behind. */
  function Wrap64(x: int): (r: int64)
  {
    var m := x % TWO64;
    if m > MAX64 then m - TWO64 else m
  }

  /** Go's integer division: the quotient is truncated toward zero. */
  function Quo(a: int, b: int): (q: int)
    requires b != 0
  {
    if a >= 0 then (if b > 0 then a / b else -(a / -b))
    else (if b > 0 then -(-a / b) else -a / -b)
  }

  /** Go's remainder: it takes the sign of the dividend. */
  function Rem(a: int, b: int): (r: int)
    requires b != 0
  {
    a - b * Quo(a, b)
  }

  datatype Decimal = Decimal(unscaled: int64, scale: uint8)

  datatype Error = Overflow | Precision | ScaleTooLarge | Empty | Syntax | Range

  // ----- the overflow tests -----

  function MulCheck(a: int64, b: int64): (r: Option<int64>)
  {
    if a == 0 || b == 0 then Some(0) else
      var r := Wrap64(a * b);
      if Wrap64(Quo(r, b)) != a then None else Some(r)
  }

  function AddCheck(a: int64, b: int64): (r: Option<int64>)
  {
    var r := Wrap64(a + b);
    if (r > a) != (b > 0) then None else Some(r)
  }

  /** What an overflow test should answer: the exact result, or a refusal exactly
      when it does not fit. */
  predicate Exact(r: Option<int64>, x: int)
  {
    r == if IsInt64(x) then Some(x) else None
  }

  lemma WrapCongruent(x: int)
    ensures IsInt64(x) ==> Wrap64(x) == x
    ensures !IsInt64(x) ==> Wrap64(x) - x >= TWO64 || x - Wrap64(x) >= TWO64
  {
    var q := x / TWO64;
    assert x == q * TWO64 + x % TWO64;
  }

  lemma QuoClose(r: int, b: int)
    requires b != 0
    ensures -Abs(b) < r - b * Quo(r, b) < Abs(b)
    ensures Abs(Quo(r, b)) <= Abs(r)
  {
    var n, m := Abs(r), Abs(b);
    assert n == m * (n / m) + n % m;
    QuotientSmall(n, m);
  }

  lemma QuotientSmall(n: int, m: int)
    requires n >= 0 && m > 0
    ensures 0 <= n / m <= n
  {
    var q := n / m;
    assert n == m * q + n % m;
    if q >= 1 {
      MulSign(q, m);
      assert q * m == m * q;
    }
  }

  function Abs(x: int): (r: int)
    ensures r >= 0
  {
    if x < 0 then -x else x
  }

  lemma QuoExact(a: int, b: int)
    requires b != 0
    ensures Quo(a * b, b) == a
  {
    var r := a * b;
    QuoClose(r, b);
    var q := Quo(r, b);
    Distributed(b, a, q);
    if a - q >= 1 {
      MulSign(b, a - q);
    } else if a - q <= -1 {
      MulSign(b, q - a);
    }
  }

  lemma Distributed(b: int, a: int, q: int)
    ensures a * b - b * q == b * (a - q)
  {
  }

  lemma MulSign(b: int, k: int)
    requires k >= 1
    ensures b >= 0 ==> b * k >= b
    ensures b <= 0 ==> b * k <= b
  {
    assert b * k == b + b * (k - 1);
  }

  /** mulCheck accepts exactly the representable products, with one exception over
      the whole of int64 x int64: MinInt64 * -1, which no caller forms. */
  lemma MulCheckExact(a: int64, b: int64)
    ensures Exact(MulCheck(a, b), a * b) <==> !(a == MIN64 && b == -1)
  {
    if a != 0 && b != 0 {
      if IsInt64(a * b) {
        ProductKept(a, b);
        assert !(a == MIN64 && b == -1);
      } else if b == -1 {
        MinimumProduct(a);
      } else {
        ProductRefused(a, b);
      }
    }
  }

  lemma ProductKept(a: int64, b: int64)
    requires a != 0 && b != 0 && IsInt64(a * b)
    ensures MulCheck(a, b) == Some(a * b)
  {
    WrapCongruent(a * b);
    QuoExact(a, b);
    WrapCongruent(a);
  }

  lemma ProductRefused(a: int64, b: int64)
    requires a != 0 && b != 0 && b != -1 && !IsInt64(a * b)
    ensures MulCheck(a, b) == None
  {
    var r := Wrap64(a * b);
    OverflowShows(a, b);
    QuoNotMin(r, b);
    WrapCongruent(Quo(r, b));
  }

  /** Only the minimum has an unrepresentable negation, and it wraps to itself. */
  lemma MinimumProduct(a: int64)
    requires !IsInt64(a * -1)
    ensures a == MIN64 && MulCheck(a, -1) == Some(MIN64)
  {
  }

  /** An overflowed product differs from the wrapped one by at least 2^64 > |b|. */
  lemma OverflowShows(a: int64, b: int64)
    requires b != 0 && !IsInt64(a * b)
    ensures Quo(Wrap64(a * b), b) != a
  {
    WrapCongruent(a * b);
    QuoClose(Wrap64(a * b), b);
  }

  lemma QuotientHalf(n: int, m: int)
    requires n >= 0 && m >= 2
    ensures 0 <= 2 * (n / m) <= n
  {
    QuotientSmall(n, m);
    var q := n / m;
    assert n == m * q + n % m;
    assert m * q == 2 * q + (m - 2) * q;
    assert (m - 2) * q >= 0;
  }

  lemma QuoNotMin(r: int64, b: int64)
    requires b != 0 && b != -1
    ensures IsInt64(Quo(r, b))
  {
    if b == 1 {
      assert Abs(r) / 1 == Abs(r);
    } else {
      QuotientHalf(Abs(r), Abs(b));
    }
  }

  lemma AddCheckExact(a: int64, b: int64)
    ensures Exact(AddCheck(a, b), a + b)
  {
    WrapCongruent(a + b);
  }

  // ----- rescaling and addition -----

  method Pow10(n: uint8) returns (r: Option<int64>)
    ensures r == if n > MAX_SCALE then None else Some(Pow(10, n))
  {
    if n > MAX_SCALE { return None; }
    PowTen(n);
    var p, i := 1, 0;
    while i < n
      invariant 0 <= i <= n && p == Pow(10, i)
      invariant IsInt64(p)
    {
      PowMonotone(10, i + 1, n);
      WrapCongruent(p * 10);
      p, i := Wrap64(p * 10), i + 1;
    }
    return Some(p);
  }

  lemma PowTen(n: nat)
    requires n <= MAX_SCALE
    ensures 0 < Pow(10, n) < MAX64
  {
    PowMonotone(10, n, 18);
    assert Pow(10, 18) == 1_000_000_000_000_000_000 by {
      assert Pow(10, 3) == 1000;
      PowAdd(10, 3, 3); PowAdd(10, 6, 6); PowAdd(10, 12, 6);
    }
  }

  lemma {:induction false} PowAdd(b: nat, m: nat, n: nat)
    ensures Pow(b, m + n) == Pow(b, m) * Pow(b, n)
  {
    if m > 0 {
      PowAdd(b, m - 1, n);
      MulAssoc(b, Pow(b, m - 1), Pow(b, n));
    }
  }

  function Pow10Spec(n: nat): (r: Option<int64>)
  {
    if n > MAX_SCALE then None else PowTen(n); Some(Pow(10, n))
  }

  function Rescale(d: Decimal, scale: uint8): (r: Result<Decimal, Error>)
  {
    if scale > MAX_SCALE then Err(ScaleTooLarge)
    else if scale == d.scale then Ok(d)
    else if scale > d.scale then
      var factor := Pow10Spec(scale - d.scale);
      if factor.None? then Err(Overflow) else
        var p := MulCheck(d.unscaled, factor.value);
        if p.None? then Err(Overflow) else Ok(Decimal(p.value, scale))
    else
      var factor := Pow10Spec(d.scale - scale);
      if factor.None? then Err(Overflow)
      else if Rem(d.unscaled, factor.value) != 0 then Err(Precision)
      else Ok(Decimal(Wrap64(Quo(d.unscaled, factor.value)), scale))
  }

  /** x at `scale` is the same number as d. */
  predicate SameValue(d: Decimal, x: int, scale: nat)
  {
    x * Pow(10, d.scale) == d.unscaled * Pow(10, scale)
  }

  lemma MulAssoc(a: int, b: int, c: int)
    ensures a * b * c == a * (b * c)
  {
  }

  lemma ScaledSame(d: Decimal, k: nat)
    ensures SameValue(d, d.unscaled * Pow(10, k), d.scale + k)
  {
    PowAdd(10, k, d.scale);
    MulAssoc(d.unscaled, Pow(10, k), Pow(10, d.scale));
  }

  /** Growing the scale: the exact multiple, or a refusal exactly when it overflows. */
  lemma RescaleUp(d: Decimal, scale: uint8)
    requires d.scale <= scale <= MAX_SCALE
    ensures var x := d.unscaled * Pow(10, scale - d.scale);
            && SameValue(d, x, scale)
            && Rescale(d, scale) == if IsInt64(x) then Ok(Decimal(x, scale)) else Err(Overflow)
  {
    ScaledSame(d, scale - d.scale);
    PowTen(scale - d.scale);
    if scale > d.scale {
      MulCheckExact(d.unscaled, Pow(10, scale - d.scale));
    }
  }

  /** x at the smaller scale has the value of d exactly when x * 10^k is d's unscaled. */
  lemma DroppedDigits(d: Decimal, x: int, scale: nat)
    requires scale <= d.scale
    ensures SameValue(d, x, scale) <==> x * Pow(10, d.scale - scale) == d.unscaled
  {
    var f, p := Pow(10, d.scale - scale), Pow(10, scale);
    PowAdd(10, d.scale - scale, scale);
    MulAssoc(x, f, p);
    if SameValue(d, x, scale) {
      CancelRight(x * f, d.unscaled, p);
    }
  }

  lemma CancelRight(a: int, b: int, c: int)
    requires c != 0 && a * c == b * c
    ensures a == b
  {
    assert (a - b) * c == 0;
  }

  /** Shrinking the scale: exact when the dropped digits are zero, refused otherwise. */
  lemma RescaleDown(d: Decimal, scale: uint8)
    requires scale < d.scale && scale <= MAX_SCALE
    ensures var r := Rescale(d, scale);
            && (r.Ok? ==> r.value.scale == scale && SameValue(d, r.value.unscaled, scale))
            && (r.Ok? <==> d.scale - scale <= MAX_SCALE && exists x: int :: SameValue(d, x, scale))
  {
    var k := d.scale - scale;
    if k <= MAX_SCALE {
      PowTen(k);
      var f := Pow(10, k);
      var q := Quo(d.unscaled, f);
      QuoNotMin(d.unscaled, f);
      WrapCongruent(q);
      DroppedDigits(d, q, scale);
      assert Rem(d.unscaled, f) == d.unscaled - f * q;
      assert q * f == f * q;
      if x: int :| SameValue(d, x, scale) {
        DroppedDigits(d, x, scale);
        QuoExact(x, f);
      }
    }
  }

  function Add(d: Decimal, o: Decimal): (r: Result<Decimal, Error>)
  {
    var scale := if o.scale > d.scale then o.scale else d.scale;
    var a :- Rescale(d, scale);
    var b :- Rescale(o, scale);
    var sum := AddCheck(a.unscaled, b.unscaled);
    if sum.None? then Err(Overflow) else Ok(Decimal(sum.value, scale))
  }

  /** Add is the exact sum at the larger scale; it refuses exactly when a scale is out
      of bounds or an aligned operand or the sum does not fit. */
  lemma AddExact(d: Decimal, o: Decimal)
    ensures var scale := if o.scale > d.scale then o.scale else d.scale;
            var x, y := d.unscaled * Pow(10, scale - d.scale), o.unscaled * Pow(10, scale - o.scale);
            && Add(d, o).Ok? == (scale <= MAX_SCALE && IsInt64(x) && IsInt64(y) && IsInt64(x + y))
            && (Add(d, o).Ok? ==> Add(d, o).value == Decimal(x + y, scale)
                                  && SameValue(d, x, scale) && SameValue(o, y, scale))
  {
    var scale := if o.scale > d.scale then o.scale else d.scale;
    if scale <= MAX_SCALE {
      RescaleUp(d, scale);
      RescaleUp(o, scale);
      var x, y := d.unscaled * Pow(10, scale - d.scale), o.unscaled * Pow(10, scale - o.scale);
      if IsInt64(x) && IsInt64(y) {
        AddCheckExact(x, y);
      }
    }
  }

  // ----- text form -----

  const MINUS: byte := 45
  const PLUS: byte := 43
  const DOT: byte := 46

  /** strconv.FormatInt(n, 10) */
  function FormatInt(n: int): (s: seq<byte>)
  {
    if n < 0 then [MINUS] + Itoa(-n) else Itoa(n)
  }

  /** strconv.ParseInt(s, 10, 64) */
  function ParseInt(s: seq<byte>): (r: Result<int64, Error>)
  {
    var signed := s != [] && (s[0] == MINUS || s[0] == PLUS);
    var digits := if signed then s[1..] else s;
    if digits == [] || !AllDigits(digits) then Err(Syntax) else
      var mag: int := Atoi(digits);
      var n := if signed && s[0] == MINUS then -mag else mag;
      if IsInt64(n) then Ok(n) else Err(Range)
  }

  function Text(d: Decimal): (s: seq<byte>)
  {
    if d.scale == 0 then FormatInt(d.unscaled) else
      var digits := Itoa(Abs(d.unscaled));
      var sign := if d.unscaled < 0 then [MINUS] else [];
      if |digits| <= d.scale then
        sign + [48, DOT] + Repeat(48, d.scale - |digits|) + digits
      else
        var split := |digits| - d.scale;
        sign + digits[..split] + [DOT] + digits[split..]
  }

  predicate IsSpace(c: byte) { c == 32 || 9 <= c <= 13 }

  function TrimSpace(s: seq<byte>): (r: seq<byte>)
    decreases |s|
  {
    if s == [] then s
    else if IsSpace(s[0]) then TrimSpace(s[1..])
    else if IsSpace(s[|s| - 1]) then TrimSpace(s[..|s| - 1])
    else s
  }

  function TrimPrefix(s: seq<byte>, c: byte): (r: seq<byte>)
  {
    if s != [] && s[0] == c then s[1..] else s
  }

  /** strings.Cut(s, "."): the part before the first dot and the part after it. */
  function Cut(s: seq<byte>): (r: (seq<byte>, seq<byte>))
  {
    if s == [] then ([], [])
    else if s[0] == DOT then ([], s[1..])
    else var (a, b) := Cut(s[1..]); ([s[0]] + a, b)
  }

  function ParseDecimal(text: seq<byte>): (r: Result<Decimal, Error>)
  {
    var s := TrimSpace(text);
    var parts := Cut(TrimPrefix(TrimPrefix(s, MINUS), PLUS));
    FromParts(s != [] && s[0] == MINUS, parts.0, parts.1)
  }

  function FromParts(neg: bool, whole: seq<byte>, frac: seq<byte>): (r: Result<Decimal, Error>)
  {
    if whole + frac == [] then Err(Empty) else
      var n: int :- ParseInt(whole + frac);
      Ok(Decimal(if neg then Wrap64(-n) else n, |frac| % 256))
  }

  lemma {:induction false} CutAt(a: seq<byte>, b: seq<byte>)
    requires DOT !in a
    ensures Cut(a + [DOT] + b) == (a, b)
    ensures Cut(a) == (a, [])
  {
    var s := a + [DOT] + b;
    if a == [] {
      assert s[1..] == b;
    } else {
      CutAt(a[1..], b);
      assert s[1..] == a[1..] + [DOT] + b;
      assert [a[0]] + a[1..] == a;
    }
  }

  predicate BothEndsDigits(s: seq<byte>)
  {
    s != [] && IsDigit(s[0]) && IsDigit(s[|s| - 1])
  }

  function Signed(neg: bool, body: seq<byte>): seq<byte>
  {
    if neg then [MINUS] + body else body
  }

  lemma StripSign(neg: bool, body: seq<byte>)
    requires BothEndsDigits(body)
    ensures ParseDecimal(Signed(neg, body)) == FromParts(neg, Cut(body).0, Cut(body).1)
  {
    var s := Signed(neg, body);
    assert s[|s| - 1] == body[|body| - 1];
    assert TrimSpace(s) == s;
    assert TrimPrefix(TrimPrefix(s, MINUS), PLUS) == body;
  }

  lemma FromDigits(neg: bool, whole: seq<byte>, frac: seq<byte>)
    requires whole != [] && AllDigits(whole + frac) && |frac| < 256
    ensures var mag: int := Atoi(whole + frac);
            FromParts(neg, whole, frac)
            == if mag > MAX64 then Err(Range) else Ok(Decimal(if neg then -mag else mag, |frac|))
  {
    var digits := whole + frac;
    var mag: int := Atoi(digits);
    assert IsDigit(digits[0]);
    assert ParseInt(digits) == if mag > MAX64 then Err(Range) else Ok(mag);
    WrapCongruent(-mag);
  }

  /** parseDecimal undoes String on every Decimal, at every scale, except at the
      single magnitude parseDecimal cannot hold before negating. */
  lemma TextRoundTrip(d: Decimal)
    ensures ParseDecimal(Text(d)) == Ok(d) <==> d.unscaled != MIN64
  {
    var whole, frac := Whole(d), Frac(d);
    TextShape(d);
    PartsDenote(d);
    FromDigits(d.unscaled < 0, whole, frac);
    if frac == [] {
      CutAt(whole, []);
      StripSign(d.unscaled < 0, whole);
    } else {
      CutAt(whole, frac);
      var body := whole + [DOT] + frac;
      assert body[|body| - 1] == frac[|frac| - 1];
      StripSign(d.unscaled < 0, body);
    }
  }

  /** The digits String writes before and after the dot. */
  function Whole(d: Decimal): (r: seq<byte>)
  {
    var digits := Itoa(Abs(d.unscaled));
    if |digits| <= d.scale then [48] else digits[..|digits| - d.scale]
  }

  function Frac(d: Decimal): (r: seq<byte>)
    ensures |r| == d.scale
  {
    var digits := Itoa(Abs(d.unscaled));
    if |digits| <= d.scale then Repeat(48, d.scale - |digits|) + digits else digits[|digits| - d.scale..]
  }

  lemma TextShape(d: Decimal)
    ensures Text(d) == Signed(d.unscaled < 0, if d.scale == 0 then Whole(d) else Whole(d) + [DOT] + Frac(d))
  {
    var digits := Itoa(Abs(d.unscaled));
    if d.scale > 0 {
      if |digits| <= d.scale {
        SmallShape(d.unscaled < 0, Repeat(48, d.scale - |digits|), digits);
      } else {
        var split := |digits| - d.scale;
        LargeShape(d.unscaled < 0, digits[..split], digits[split..]);
      }
    }
  }

  lemma SmallShape(neg: bool, zeros: seq<byte>, digits: seq<byte>)
    ensures (if neg then [MINUS] else []) + [48, DOT] + zeros + digits == Signed(neg, [48] + [DOT] + (zeros + digits))
  {
    assert [48, DOT] == [48] + [DOT];
    ConcatAssoc([48, DOT], zeros, digits);
  }

  lemma LargeShape(neg: bool, whole: seq<byte>, frac: seq<byte>)
    ensures (if neg then [MINUS] else []) + whole + [DOT] + frac == Signed(neg, whole + [DOT] + frac)
  {
    ConcatAssoc([MINUS], whole, [DOT]);
    ConcatAssoc([MINUS], whole + [DOT], frac);
  }

  lemma PartsDenote(d: Decimal)
    ensures Whole(d) != [] && AllDigits(Whole(d)) && AllDigits(Frac(d))
    ensures AllDigits(Whole(d) + Frac(d)) && Atoi(Whole(d) + Frac(d)) == Abs(d.unscaled)
  {
    var digits := Itoa(Abs(d.unscaled));
    AtoiItoa(Abs(d.unscaled));
    if |digits| <= d.scale {
      var g := d.scale - |digits|;
      AtoiPadded(1 + g, digits);
      assert Whole(d) + Frac(d) == Repeat(48, 1 + g) + digits;
    } else {
      assert Whole(d) + Frac(d) == digits;
    }
  }
}
