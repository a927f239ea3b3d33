/** Field paths and their bounded cache (iso8583/path.go). */
module Paths {
  import opened Wrappers
  import opened Numerals

  const DOT: byte := 46
  const MAX_DEPTH := 6
  const MAX_INT32 := 0x7fff_ffff

  type Text = seq<byte>

  /** A numeric element, or a BER-TLV tag in upper-case hex. */
  datatype Elem = Num(n: nat) | Tag(t: Text)

  type Path = seq<Elem>

  datatype Error = EmptyPath | TooDeep | EmptyElement | BadCharacter | OutOfRange

  // ----- one element -----

  predicate IsHexLetter(c: byte) { 65 <= c <= 70 || 97 <= c <= 102 }

  predicate AllHex(s: Text) { forall i :: 0 <= i < |s| ==> IsDigit(s[i]) || IsHexLetter(s[i]) }

  function Upper(c: byte): byte { if 97 <= c <= 122 then c - 32 else c }

  function ToUpper(s: Text): (r: Text)
    ensures |r| == |s|
  {
    seq(|s|, i requires 0 <= i < |s| => Upper(s[i]))
  }

  /** Any hex letter makes an element a tag; digits alone are an index below 2^31. */
  function ParseElem(seg: Text): Result<Elem, Error>
  {
    if !AllHex(seg) then Err(BadCharacter)
    else if !AllDigits(seg) then Ok(Tag(ToUpper(seg)))
    else if Atoi(seg) > MAX_INT32 then Err(OutOfRange)
    else Ok(Num(Atoi(seg)))
  }

  method ParseElement(seg: Text) returns (r: Result<Elem, Error>)
    ensures r == ParseElem(seg)
  {
    var hasHexLetter := false;
    for i := 0 to |seg|
      invariant AllHex(seg[..i])
      invariant !hasHexLetter <==> AllDigits(seg[..i])
    {
      var c := seg[i];
      if 48 <= c <= 57 {
      } else if IsHexLetter(c) {
        hasHexLetter := true;
        assert seg[..i + 1][i] == c;
      } else {
        return Err(BadCharacter);
      }
      assert !AllDigits(seg[..i]) ==> !AllDigits(seg[..i + 1]) by {
        if !AllDigits(seg[..i]) {
          var j :| 0 <= j < i && !IsDigit(seg[..i][j]);
          assert seg[..i + 1][j] == seg[j];
        }
      }
    }
    assert seg[..|seg|] == seg;
    if hasHexLetter { return Ok(Tag(ToUpper(seg))); }
    if Atoi(seg) > MAX_INT32 { return Err(OutOfRange); }
    return Ok(Num(Atoi(seg)));
  }

  function PrintElem(e: Elem): Text
  {
    match e
    case Num(n) => Itoa(n)
    case Tag(t) => t
  }

  /** What ParseElem makes: an int32 index, or upper-case hex with a letter in it. */
  predicate Canonical(e: Elem)
  {
    match e
    case Num(n) => n <= MAX_INT32
    case Tag(t) => AllHex(t) && !AllDigits(t) && ToUpper(t) == t
  }

  lemma ParsedElem(seg: Text)
    requires ParseElem(seg).Ok?
    ensures Canonical(ParseElem(seg).value)
  {
    if !AllDigits(seg) {
      var i :| 0 <= i < |seg| && !IsDigit(seg[i]);
      var t := ToUpper(seg);
      assert !IsDigit(t[i]);
      assert forall j :: 0 <= j < |t| ==> t[j] == Upper(seg[j]) && Upper(t[j]) == t[j];
    }
  }

  lemma ElemRoundTrip(e: Elem)
    requires Canonical(e)
    ensures ParseElem(PrintElem(e)) == Ok(e)
    ensures PrintElem(e) != [] && NoDot(PrintElem(e))
  {
    if e.Num? {
      AtoiItoa(e.n);
    }
  }

  // ----- paths -----

  /** The element a segment stands for, at a depth. */
  function ElemAt(seg: Text, depth: nat): Result<Elem, Error>
  {
    if seg == [] then Err(EmptyElement) else if depth >= MAX_DEPTH then Err(TooDeep) else ParseElem(seg)
  }

  method NextElement(seg: Text, depth: nat) returns (r: Result<Elem, Error>)
    ensures r == ElemAt(seg, depth)
  {
    if seg == [] { return Err(EmptyElement); }
    if depth >= MAX_DEPTH { return Err(TooDeep); }
    r := ParseElement(seg);
  }

  /** The next dot from i on, or the end. */
  function DotFrom(s: Text, i: nat): (k: nat)
    requires i <= |s|
    ensures i <= k <= |s|
    decreases |s| - i
  {
    if i == |s| || s[i] == DOT then i else DotFrom(s, i + 1)
  }

  /** How a segment at a depth is read. */
  type Reader = (Text, nat) -> Result<Elem, Error>

  /** The elements of s from start on, behind those already found. */
  function ParseFrom(elem: Reader, s: Text, start: nat, found: Path): Result<Path, Error>
    requires start <= |s|
    decreases |s| - start
  {
    var k := DotFrom(s, start);
    var e :- elem(s[start..k], |found|);
    if k == |s| then Ok(found + [e]) else ParseFrom(elem, s, k + 1, found + [e])
  }

  function Parse(s: Text): Result<Path, Error>
  {
    if s == [] then Err(EmptyPath) else ParseFrom(ElemAt, s, 0, [])
  }

  method ParseUncached(s: Text) returns (r: Result<Path, Error>)
    requires s != []
    ensures r == Parse(s)
  {
    var p: Path := [];
    var start := 0;
    var i := 0;
    ghost var want := ParseFrom(ElemAt, s, 0, []);
    while true
      invariant 0 <= start <= i <= |s| && DotFrom(s, start) == DotFrom(s, i)
      invariant want == ParseFrom(ElemAt, s, start, p)
      decreases |s| - i
    {
      if i < |s| && s[i] != DOT {
        i := i + 1;
        continue;
      }
      var elem := NextElement(s[start..i], |p|);
      if elem.Err? { return Err(elem.error); }
      if i == |s| { return Ok(p + [elem.value]); }
      p := p + [elem.value];
      start := i + 1;
      i := i + 1;
    }
  }

  predicate NoDot(s: Text) { forall j :: 0 <= j < |s| ==> s[j] != DOT }

  predicate CanonicalPath(p: Path) { 1 <= |p| <= MAX_DEPTH && forall i :: 0 <= i < |p| ==> Canonical(p[i]) }

  lemma {:induction false} ParsedFrom(s: Text, start: nat, found: Path)
    requires start <= |s| && ParseFrom(ElemAt, s, start, found).Ok? && forall i :: 0 <= i < |found| ==> Canonical(found[i])
    ensures CanonicalPath(ParseFrom(ElemAt, s, start, found).value)
    decreases |s| - start
  {
    var k := DotFrom(s, start);
    ParsedElem(s[start..k]);
    if k < |s| {
      ParsedFrom(s, k + 1, found + [ParseElem(s[start..k]).value]);
    }
  }

  lemma {:induction false} DotIs(s: Text, i: nat, k: nat)
    requires i <= k <= |s| && (k < |s| ==> s[k] == DOT) && forall j :: i <= j < k ==> s[j] != DOT
    ensures DotFrom(s, i) == k
    decreases k - i
  {
    if i < k {
      DotIs(s, i + 1, k);
    }
  }

  /** e, and then a dot or nothing, stands at start. */
  lemma SegmentIs(s: Text, start: nat, e: Text, rest: Text)
    requires start <= |s| && s[start..] == e + rest && (rest != [] ==> rest[0] == DOT)
    requires NoDot(e)
    ensures DotFrom(s, start) == start + |e| && s[start..start + |e|] == e && s[start + |e|..] == rest
  {
    var k, t := start + |e|, e + rest;
    assert forall j :: start <= j < |s| ==> s[j] == s[start..][j - start];
    assert forall j :: 0 <= j < |e| ==> t[j] == e[j];
    if k < |s| { assert s[k] == t[|e|] == rest[0]; }
    DotIs(s, start, k);
    DropTake(s, start, k);
    DropDrop(s, start, k);
    assert t[..|e|] == e && t[|e|..] == rest;
  }

  /** One text is read off, and the parse goes on behind its dot. */
  lemma FirstRead(elem: Reader, s: Text, start: nat, text: Text, e: Elem, rest: Text, found: Path)
    requires start <= |s| && s[start..] == text + rest && (rest != [] ==> rest[0] == DOT)
    requires elem(text, |found|) == Ok(e) && NoDot(text)
    ensures rest == [] ==> ParseFrom(elem, s, start, found) == Ok(found + [e])
    ensures rest != [] ==>
              var next := start + |text| + 1;
              next <= |s| && s[next..] == rest[1..] && ParseFrom(elem, s, start, found) == ParseFrom(elem, s, next, found + [e])
  {
    SegmentIs(s, start, text, rest);
    var k := start + |text|;
    if rest != [] {
      assert |s[k..]| == |rest|;
      DropDrop(s, k, k + 1);
    }
  }

  /** Dotted texts. */
  function Joined(texts: seq<Text>): Text
    decreases |texts|, 1
  {
    if texts == [] then [] else texts[0] + Tail(texts)
  }

  function Tail(texts: seq<Text>): Text
    requires texts != []
    decreases |texts|, 0
  {
    if |texts| == 1 then [] else [DOT] + Joined(texts[1..])
  }

  /** Dotted texts that read as elements are read as those elements. */
  lemma {:induction false} JoinedReads(elem: Reader, s: Text, start: nat, texts: seq<Text>, p: Path, found: Path)
    requires start <= |s| && |texts| == |p| > 0 && s[start..] == Joined(texts)
    requires forall i :: 0 <= i < |p| ==> elem(texts[i], |found| + i) == Ok(p[i]) && NoDot(texts[i])
    ensures ParseFrom(elem, s, start, found) == Ok(found + p)
    decreases |p|
  {
    FirstRead(elem, s, start, texts[0], p[0], Tail(texts), found);
    MoveHead(found, p);
    if |p| == 1 {
      NoMore(found + [p[0]], p[1..]);
    } else {
      var next, found' := start + |texts[0]| + 1, found + [p[0]];
      assert ([DOT] + Joined(texts[1..]))[1..] == Joined(texts[1..]);
      forall i | 0 <= i < |p| - 1
        ensures elem(texts[1..][i], |found'| + i) == Ok(p[1..][i]) && NoDot(texts[1..][i])
      {
        assert texts[1..][i] == texts[i + 1] && p[1..][i] == p[i + 1];
      }
      JoinedReads(elem, s, next, texts[1..], p[1..], found');
    }
  }

  lemma NoMore<T>(a: seq<T>, b: seq<T>)
    requires b == []
    ensures a + b == a
  {
  }

  function Texts(p: Path): seq<Text> { seq(|p|, i requires 0 <= i < |p| => PrintElem(p[i])) }

  function Print(p: Path): Text { Joined(Texts(p)) }

  /** Every path that parses prints to a text that parses to the same path. */
  lemma PathRoundTrip(s: Text)
    requires Parse(s).Ok?
    ensures CanonicalPath(Parse(s).value) && Parse(Print(Parse(s).value)) == Parse(s)
  {
    ParsedFrom(s, 0, []);
    PrintReads(Parse(s).value);
  }

  lemma PrintReads(p: Path)
    requires CanonicalPath(p)
    ensures Parse(Print(p)) == Ok(p)
  {
    var t, texts := Print(p), Texts(p);
    var none: Path := [];
    forall i | 0 <= i < |p| ensures ElemAt(texts[i], |none| + i) == Ok(p[i]) && NoDot(texts[i]) {
      ElemRoundTrip(p[i]);
    }
    assert t[0..] == t;
    JoinedReads(ElemAt, t, 0, texts, p, none);
    assert none + p == p;
    ElemRoundTrip(p[0]);
    assert texts[0] != [] && t != [];
  }

  // ----- the cache -----

  predicate Distinct(ks: seq<Text>) { forall i, j :: 0 <= i < j < |ks| ==> ks[i] != ks[j] }

  /** The texts in a ring that holds `size` of them, oldest first. */
  function Oldest(size: nat, ring: seq<Text>, next: nat): seq<Text>
    requires next <= |ring|
  {
    if size < |ring| then ring[..next] else ring[next..] + ring[..next]
  }

  /** The ring holds exactly the cached keys, each once. */
  ghost predicate Faithful(m: map<Text, Path>, ring: seq<Text>, next: nat)
  {
    && next < |ring| && |m| <= |ring| && (|m| < |ring| ==> next == |m|)
    && Holds(m, Oldest(|m|, ring, next))
  }

  ghost predicate Holds(m: map<Text, Path>, ks: seq<Text>)
  {
    Distinct(ks) && forall k :: k in m <==> k in ks
  }

  /** Every entry is what the uncached parser gives. */
  ghost predicate AllParsed(m: map<Text, Path>)
  {
    AllSatisfy(IsParse, m)
  }

  ghost predicate AllSatisfy<K(!new), V(!new)>(good: (K, V) -> bool, m: map<K, V>)
  {
    forall k :: k in m ==> good(k, m[k])
  }

  lemma StillSatisfy<K(!new), V(!new)>(good: (K, V) -> bool, m: map<K, V>, gone: set<K>, k: K, v: V)
    requires AllSatisfy(good, m) && good(k, v)
    ensures AllSatisfy(good, (m - gone)[k := v]) && AllSatisfy(good, m[k := v])
  {
  }

  predicate IsParse(s: Text, p: Path) { s != [] && Parse(s) == Ok(p) }

  lemma HoldsSnoc(m: map<Text, Path>, ks: seq<Text>, s: Text, p: Path)
    requires Holds(m, ks) && s !in m
    ensures Holds(m[s := p], ks + [s])
  {
    forall k ensures k in m[s := p] <==> k in ks + [s] {
      assert k in ks + [s] <==> k in ks || k == s;
    }
  }

  lemma HoldsTail(m: map<Text, Path>, ks: seq<Text>)
    requires Holds(m, ks) && ks != []
    ensures ks[0] in m && Holds(m - {ks[0]}, ks[1..])
  {
    assert ks[0] in ks;
    forall k ensures k in m - {ks[0]} <==> k in ks[1..] {
      assert ks == [ks[0]] + ks[1..];
      assert k in ks <==> k == ks[0] || k in ks[1..];
    }
  }

  lemma RoomKeys(size: nat, ring: seq<Text>, s: Text)
    requires size < |ring|
    ensures Oldest(size + 1, ring[size := s], (size + 1) % |ring|) == Oldest(size, ring, size) + [s]
  {
    if size + 1 == |ring| {
      assert (size + 1) % |ring| == 0;
    } else {
      assert (size + 1) % |ring| == size + 1;
    }
    assert ring[size := s][..size + 1] == ring[..size] + [s];
  }

  lemma FullKeys(ring: seq<Text>, next: nat, s: Text)
    requires next < |ring|
    ensures Oldest(|ring|, ring[next := s], (next + 1) % |ring|) == Oldest(|ring|, ring, next)[1..] + [s]
    ensures Oldest(|ring|, ring, next)[0] == ring[next]
  {
    var r := ring[next := s];
    assert Oldest(|ring|, ring, next)[1..] == ring[next + 1..] + ring[..next];
    assert r[..next + 1] == ring[..next] + [s] && r[next + 1..] == ring[next + 1..];
    if next + 1 == |ring| {
      assert (next + 1) % |ring| == 0;
      assert r == r[..next + 1];
    } else {
      assert (next + 1) % |ring| == next + 1;
      ConcatAssoc(ring[next + 1..], ring[..next], [s]);
    }
  }

  lemma MapWithout(m: map<Text, Path>, k: Text)
    requires k in m
    ensures |m - {k}| == |m| - 1
  {
    assert (m - {k}).Keys == m.Keys - {k};
  }

  lemma RoomFaithful(m: map<Text, Path>, ring: seq<Text>, next: nat, s: Text, p: Path)
    requires Faithful(m, ring, next) && |m| < |ring| && s !in m
    ensures |m[s := p]| == |m| + 1 && Faithful(m[s := p], ring[next := s], (next + 1) % |ring|)
    ensures Oldest(|m| + 1, ring[next := s], (next + 1) % |ring|) == Oldest(|m|, ring, next) + [s]
  {
    RoomKeys(|m|, ring, s);
    HoldsSnoc(m, Oldest(|m|, ring, next), s, p);
    Around(next, |ring|);
  }

  lemma Around(next: nat, n: nat)
    requires next < n
    ensures (next + 1) % n == if next + 1 == n then 0 else next + 1
  {
  }

  lemma FullFaithful(m: map<Text, Path>, ring: seq<Text>, next: nat, s: Text, p: Path)
    requires Faithful(m, ring, next) && |m| == |ring| && s !in m
    ensures ring[next] in m && |(m - {ring[next]})[s := p]| == |ring|
    ensures Faithful((m - {ring[next]})[s := p], ring[next := s], (next + 1) % |ring|)
    ensures Oldest(|ring|, ring[next := s], (next + 1) % |ring|) == Oldest(|m|, ring, next)[1..] + [s]
  {
    var ks := Oldest(|m|, ring, next);
    FullKeys(ring, next, s);
    HoldsTail(m, ks);
    MapWithout(m, ring[next]);
    HoldsSnoc(m - {ring[next]}, ks[1..], s, p);
    Around(next, |ring|);
  }

  datatype Cached = Cached(m: map<Text, Path>, ring: seq<Text>, next: nat)

  function Stored(c: Cached, s: Text, p: Path): Cached
    requires c.next < |c.ring|
  {
    var m := if |c.m| >= |c.ring| then c.m - {c.ring[c.next]} else c.m;
    Cached(m[s := p], c.ring[c.next := s], (c.next + 1) % |c.ring|)
  }

  /** The cached texts, oldest first. */
  function KeysOf(c: Cached): seq<Text>
    requires c.next <= |c.ring|
  {
    Oldest(|c.m|, c.ring, c.next)
  }

  ghost predicate Sound(c: Cached) { Faithful(c.m, c.ring, c.next) && AllParsed(c.m) }

  lemma StoredRoom(c: Cached, s: Text, p: Path)
    requires Faithful(c.m, c.ring, c.next) && s !in c.m && |c.m| < |c.ring|
    ensures var c' := Stored(c, s, p); Faithful(c'.m, c'.ring, c'.next) && KeysOf(c') == KeysOf(c) + [s]
  {
    RoomFaithful(c.m, c.ring, c.next, s, p);
  }

  lemma StoredFull(c: Cached, s: Text, p: Path)
    requires Faithful(c.m, c.ring, c.next) && s !in c.m && |c.m| == |c.ring|
    ensures var c' := Stored(c, s, p); Faithful(c'.m, c'.ring, c'.next) && KeysOf(c') == KeysOf(c)[1..] + [s]
  {
    FullFaithful(c.m, c.ring, c.next, s, p);
  }

  lemma StoredParsed(c: Cached, s: Text, p: Path)
    requires c.next < |c.ring| && AllParsed(c.m) && IsParse(s, p)
    ensures AllParsed(Stored(c, s, p).m)
  {
    StillSatisfy(IsParse, c.m, {c.ring[c.next]}, s, p);
  }

  /** A new text goes in last, a full cache drops its oldest, and the cache never outgrows
      its ring. */
  lemma StoreEvictsOldest(c: Cached, s: Text, p: Path)
    requires Sound(c) && s !in c.m && IsParse(s, p)
    ensures var c' := Stored(c, s, p);
            && Sound(c') && |c'.ring| == |c.ring| && |c'.m| <= |c'.ring| && s in c'.m
            && KeysOf(c') == (if |c.m| == |c.ring| then KeysOf(c)[1..] else KeysOf(c)) + [s]
  {
    StoredParsed(c, s, p);
    if |c.m| < |c.ring| { StoredRoom(c, s, p); } else { StoredFull(c, s, p); }
  }

  /** The cache as an object. */
  class Cache {
    var m: map<Text, Path>
    var ring: seq<Text>
    var next: nat
    const limit: nat

    function State(): Cached
      reads this
    {
      Cached(m, ring, next)
    }

    ghost predicate Valid()
      reads this
    {
      limit == |ring| && Sound(State())
    }

    constructor (n: nat)
      requires n > 0
      ensures Valid() && KeysOf(State()) == [] && limit == n
    {
      m, next, limit := map[], 0, n;
      ring := seq(n, _ => []);
    }

    method Lookup(s: Text) returns (p: Option<Path>)
      requires Valid()
      ensures p.Some? <==> s in m
      ensures p.Some? ==> Parse(s) == Ok(p.value)
    {
      if s in m {
        assert IsParse(s, m[s]);
        return Some(m[s]);
      }
      return None;
    }

    /** A text already cached is left alone. */
    method Store(s: Text, p: Path)
      requires Valid() && IsParse(s, p)
      modifies this
      ensures Valid()
      ensures State() == if s in old(m) then old(State()) else Stored(old(State()), s, p)
    {
      if s in m { return; }
      StoreEvictsOldest(State(), s, p);
      Insert(s, p);
    }

    method Insert(s: Text, p: Path)
      requires limit == |ring| && next < limit
      modifies this
      ensures State() == Stored(old(State()), s, p)
    {
      if |m| >= limit { m := m - {ring[next]}; }
      m := m[s := p];
      ring := ring[next := s];
      next := (next + 1) % limit;
    }

    /** ParsePath: whatever has been cached, the answer is the uncached parser's. */
    method ParsePath(s: Text) returns (r: Result<Path, Error>)
      requires Valid()
      modifies this
      ensures Valid() && |m| <= limit && r == Parse(s)
      ensures r.Ok? ==> s in m
    {
      if s == [] { return Err(EmptyPath); }
      var hit := Lookup(s);
      if hit.Some? { return Ok(hit.value); }
      r := ParseUncached(s);
      if r.Err? { return; }
      Store(s, r.value);
    }
  }
}
