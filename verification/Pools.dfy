/** The reconnecting connection pool (link/pool.go): round-robin Get as an algorithm, and
    callers, reconnector goroutines and Close as interleaved steps. */
module Pools {
  import opened Wrappers
  import opened Numerals

  type Link = nat

  // ----- Get -----

  /** The slots in the order Get visits them. */
  function Rotated<T>(s: seq<T>, k: nat): seq<T>
    requires k <= |s|
  {
    s[k..] + s[..k]
  }

  function Healthy(s: seq<Option<Link>>): seq<Link>
  {
    if s == [] then [] else (if s[0].Some? then [s[0].value] else []) + Healthy(s[1..])
  }

  lemma RotatedAt<T>(s: seq<T>, k: nat, i: nat)
    requires k < |s| && i < |s|
    ensures Rotated(s, k)[i] == s[(k + i) % |s|]
  {
    if k + i < |s| {
      assert (k + i) % |s| == k + i;
    } else {
      assert (k + i) % |s| == k + i - |s| by { ModBack(k + i, |s|); }
    }
  }

  lemma ModBack(x: nat, n: nat)
    requires 0 < n <= x < 2 * n
    ensures x % n == x - n
  {
    assert x == n + (x - n);
    assert (x - n) % n == x - n;
  }

  lemma ModSmall(x: nat, n: nat)
    requires x < n
    ensures x % n == x
  {
  }

  lemma {:induction false} HealthyConcat(a: seq<Option<Link>>, b: seq<Option<Link>>)
    ensures Healthy(a + b) == Healthy(a) + Healthy(b)
  {
    if a == [] {
      assert a + b == b;
    } else {
      HealthyConcat(a[1..], b);
      assert (a + b)[1..] == a[1..] + b;
      ConcatAssoc(if a[0].Some? then [a[0].value] else [], Healthy(a[1..]), Healthy(b));
    }
  }

  lemma {:induction false} HealthyNone(s: seq<Option<Link>>)
    requires forall i :: 0 <= i < |s| ==> s[i].None?
    ensures Healthy(s) == []
  {
    if s != [] {
      HealthyNone(s[1..]);
    }
  }

  /** Turning past empty slots and the first healthy one turns the healthy list by one. */
  lemma TurnedPast(r: seq<Option<Link>>, j: nat)
    requires j < |r| && r[j].Some? && forall i :: 0 <= i < j ==> r[i].None?
    ensures Healthy(r) == [r[j].value] + Healthy(r[j + 1..])
    ensures Healthy(r[j + 1..] + r[..j + 1]) == Healthy(r[j + 1..]) + [r[j].value]
  {
    HealthyUpTo(r, j);
    SplitAt(r, j + 1);
    HealthyConcat(r[..j + 1], r[j + 1..]);
    HealthyConcat(r[j + 1..], r[..j + 1]);
  }

  lemma SplitAt<T>(s: seq<T>, k: nat)
    requires k <= |s|
    ensures s == s[..k] + s[k..]
  {
  }

  lemma HealthyUpTo(r: seq<Option<Link>>, j: nat)
    requires j < |r| && r[j].Some? && forall i :: 0 <= i < j ==> r[i].None?
    ensures Healthy(r[..j + 1]) == [r[j].value]
  {
    HealthyNone(r[..j]);
    assert r[..j + 1] == r[..j] + [r[j]];
    HealthyConcat(r[..j], [r[j]]);
    var one: seq<Option<Link>> := [r[j]];
    assert one[1..] == [];
    assert Healthy(one) == [r[j].value] + Healthy(one[1..]);
  }

  /** Cut r anywhere and swap the parts: a turn by that much more. */
  lemma RotatedWithin<T>(s: seq<T>, k: nat, m: nat)
    requires k + m <= |s|
    ensures Rotated(s, k)[m..] + Rotated(s, k)[..m] == Rotated(s, k + m)
  {
    var r := Rotated(s, k);
    assert r[m..] == s[k + m..] + s[..k];
    assert r[..m] == s[k..k + m];
    assert s[..k] + s[k..k + m] == s[..k + m];
    ConcatAssoc(s[k + m..], s[..k], s[k..k + m]);
  }

  lemma RotatedAround<T>(s: seq<T>, k: nat, m: nat)
    requires k <= |s| && m <= |s| && k + m >= |s|
    ensures Rotated(s, k)[m..] + Rotated(s, k)[..m] == Rotated(s, k + m - |s|)
  {
    var r, x := Rotated(s, k), k + m - |s|;
    assert r[m..] == s[x..k];
    assert r[..m] == s[k..] + s[..x];
    assert s[x..k] + s[k..] == s[x..];
    ConcatAssoc(s[x..k], s[k..], s[..x]);
  }

  lemma NextIndex(k: nat, j: nat, n: nat)
    requires k < n && j < n
    ensures ((k + j) % n + 1) % n == if k + j + 1 < n then k + j + 1 else k + j + 1 - n
  {
    if k + j >= n { ModBack(k + j, n); } else { ModSmall(k + j, n); }
    var idx := (k + j) % n;
    if idx + 1 == n { ModBack(idx + 1, n); } else { ModSmall(idx + 1, n); }
  }

  lemma RotatedTurn<T>(s: seq<T>, k: nat, j: nat)
    requires k < |s| && j < |s|
    ensures var next := ((k + j) % |s| + 1) % |s|;
            next < |s| && Rotated(s, next) == Rotated(s, k)[j + 1..] + Rotated(s, k)[..j + 1]
  {
    NextIndex(k, j, |s|);
    if k + j + 1 < |s| { RotatedWithin(s, k, j + 1); } else { RotatedAround(s, k, j + 1); }
  }

  /** How far the first healthy slot is. */
  function FirstHealthy(r: seq<Option<Link>>): (j: nat)
    ensures j <= |r| && (forall i :: 0 <= i < j ==> r[i].None?) && (j < |r| ==> r[j].Some?)
  {
    if r == [] || r[0].Some? then 0 else 1 + FirstHealthy(r[1..])
  }

  datatype Answer = Answer(l: Option<Link>, next: nat)

  function GetSpec(slots: seq<Option<Link>>, next: nat): (a: Answer)
    requires next < |slots|
    ensures a.next < |slots|
  {
    var r := Rotated(slots, next);
    var j := FirstHealthy(r);
    if j == |r| then Answer(None, next) else Answer(r[j], ((next + j) % |slots| + 1) % |slots|)
  }

  datatype Error = PoolClosed | NoHealthy

  /** Get: a closed pool answers with no look at its slots. */
  method Get(closed: bool, slots: seq<Option<Link>>, next: nat) returns (l: Result<Link, Error>, next': nat)
    requires slots == [] || next < |slots|
    ensures l == Err(PoolClosed) <==> closed
    ensures l.Err? ==> next' == next
    ensures !closed ==> (l == Err(NoHealthy) <==> forall i :: 0 <= i < |slots| ==> slots[i].None?)
    ensures !closed && slots != [] ==> Answer(if l.Ok? then Some(l.value) else None, next') == GetSpec(slots, next)
  {
    if closed { return Err(PoolClosed), next; }
    var found, n := FindHealthy(slots, next);
    if slots != [] { NoneFound(slots, next); }
    if found.None? { return Err(NoHealthy), n; }
    return Ok(found.value), n;
  }

  method FindHealthy(slots: seq<Option<Link>>, next: nat) returns (l: Option<Link>, next': nat)
    requires slots == [] || next < |slots|
    ensures if slots == [] then l == None && next' == next else Answer(l, next') == GetSpec(slots, next)
  {
    var n := |slots|;
    ghost var r := if n == 0 then [] else Rotated(slots, next);
    for i := 0 to n
      invariant forall j :: 0 <= j < i ==> r[j].None?
    {
      var idx := (next + i) % n;
      RotatedAt(slots, next, i);
      if slots[idx].Some? { return slots[idx], (idx + 1) % n; }
    }
    return None, next;
  }

  lemma NoneFound(slots: seq<Option<Link>>, next: nat)
    requires next < |slots|
    ensures GetSpec(slots, next).l.None? <==> forall i :: 0 <= i < |slots| ==> slots[i].None?
    ensures GetSpec(slots, next).l.None? ==> GetSpec(slots, next).next == next
  {
    var r := Rotated(slots, next);
    if FirstHealthy(r) == |r| {
      AllEmpty(slots, next);
    } else {
      RotatedAt(slots, next, FirstHealthy(r));
    }
  }

  lemma AllEmpty(slots: seq<Option<Link>>, next: nat)
    requires next < |slots| && forall j :: 0 <= j < |slots| ==> Rotated(slots, next)[j].None?
    ensures forall i :: 0 <= i < |slots| ==> slots[i].None?
  {
    forall i | 0 <= i < |slots| ensures slots[i].None? {
      assert slots[i] == Rotated(slots, next)[if i >= next then i - next else i + |slots| - next];
    }
  }

  /** Get finds a link exactly when one is healthy, and then, seen in visiting order, the
      healthy links turn by one. */
  lemma GetTurns(slots: seq<Option<Link>>, next: nat)
    requires next < |slots|
    ensures var h := Healthy(Rotated(slots, next)); var a := GetSpec(slots, next);
            if h == [] then a == Answer(None, next)
            else a.l == Some(h[0]) && Healthy(Rotated(slots, a.next)) == h[1..] + [h[0]]
  {
    var r := Rotated(slots, next);
    var j := FirstHealthy(r);
    if j == |r| {
      HealthyNone(r);
    } else {
      TurnedPast(r, j);
      RotatedTurn(slots, next, j);
    }
  }

  /** The links n Gets in a row return. */
  function Gets(slots: seq<Option<Link>>, next: nat, n: nat): seq<Link>
    requires next < |slots|
    decreases n
  {
    if n == 0 then []
    else
      var a := GetSpec(slots, next);
      (if a.l.Some? then [a.l.value] else []) + Gets(slots, a.next, n - 1)
  }

  lemma {:induction false} GetsInTurn(slots: seq<Option<Link>>, next: nat, h: seq<Link>, k: nat, n: nat)
    requires next < |slots| && k + n <= |h| && Healthy(Rotated(slots, next)) == Rotated(h, k)
    ensures Gets(slots, next, n) == h[k..k + n]
    decreases n
  {
    if n > 0 {
      GetTurns(slots, next);
      var a := GetSpec(slots, next);
      TurnedByOne(h, k);
      GetsInTurn(slots, a.next, h, k + 1, n - 1);
      assert h[k..k + n] == [h[k]] + h[k + 1..k + n];
    }
  }

  lemma TurnedByOne<T>(h: seq<T>, k: nat)
    requires k < |h|
    ensures var r := Rotated(h, k); r[0] == h[k] && r[1..] + [r[0]] == Rotated(h, k + 1)
  {
    RotatedWithin(h, k, 1);
    assert Rotated(h, k)[..1] == [h[k]];
  }

  /** As many Gets as there are healthy links return each of them once, in slot order from
      next on. */
  lemma GetsVisitEach(slots: seq<Option<Link>>, next: nat)
    requires next < |slots|
    ensures var h := Healthy(Rotated(slots, next)); Gets(slots, next, |h|) == h
  {
    var h := Healthy(Rotated(slots, next));
    assert Rotated(h, 0) == h;
    GetsInTurn(slots, next, h, 0, |h|);
  }
}
