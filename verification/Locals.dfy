/** The in-process tuple space (space/local.go): its operations as an object, and every
    interleaving of its callers as steps over the broadcast-wakeup monitor. */
module Locals {
  import opened Wrappers

  type Key = string
  type Entry = int
  type Queues = map<Key, seq<Entry>>

  function QueueOf(data: Queues, key: Key): seq<Entry> { if key in data then data[key] else [] }

  function Popped(data: Queues, key: Key): Queues
    requires QueueOf(data, key) != []
  {
    if |data[key]| == 1 then data - {key} else data[key := data[key][1..]]
  }

  // ----- the object -----

  /** `notify` numbers the current broadcast channel; lower numbers are closed. */
  class Local {
    var data: Queues
    var notify: nat
    var closed: bool

    constructor ()
      ensures data == map[] && notify == 0 && !closed
    {
      data, notify, closed := map[], 0, false;
    }

    method Signal()
      modifies this`notify
      ensures notify == old(notify) + 1
    {
      notify := notify + 1;
    }

    method Out(key: Key, v: Entry)
      modifies this`data, this`notify
      ensures closed ==> data == old(data) && notify == old(notify)
      ensures !closed ==> data == old(data)[key := QueueOf(old(data), key) + [v]] && notify == old(notify) + 1
    {
      if closed { return; }
      data := data[key := (if key in data then data[key] else []) + [v]];
      Signal();
    }

    method Pop(key: Key)
      requires QueueOf(data, key) != []
      modifies this`data
      ensures data == Popped(old(data), key)
    {
      var rest := data[key][1..];
      if |rest| == 0 {
        data := data - {key};
      } else {
        data := data[key := rest];
      }
    }

    /** Inp does not look at closed: entries left behind can still be drained. */
    method Inp(key: Key) returns (v: Option<Entry>)
      modifies this`data
      ensures v == if QueueOf(old(data), key) == [] then None else Some(old(data)[key][0])
      ensures data == if v.None? then old(data) else Popped(old(data), key)
    {
      if key !in data || |data[key]| == 0 { return None; }
      v := Some(data[key][0]);
      Pop(key);
    }

    method Rdp(key: Key) returns (v: Option<Entry>)
      ensures v == if QueueOf(data, key) == [] then None else Some(data[key][0])
    {
      if key !in data || |data[key]| == 0 { return None; }
      return Some(data[key][0]);
    }

    method Close()
      modifies this`closed, this`notify
      ensures closed && notify == if old(closed) then old(notify) else old(notify) + 1
    {
      if closed { return; }
      closed := true;
      Signal();
    }
  }

  // ----- interleavings -----

  datatype Outcome = Got(v: Entry, pos: nat) | Closed | Cancelled

  /** An In or Rd call: about to check under the lock, blocked on a channel, or returned. */
  datatype Pc = Checking | Blocked(ch: nat) | Done(r: Outcome)

  datatype Waiter = Waiter(key: Key, take: bool, pc: Pc)

  /** `put` and `taken` record, per key, what was accepted and what was removed. */
  datatype Space = Space(data: Queues, notify: nat, closed: bool, waiters: map<nat, Waiter>, put: Queues, taken: Queues)

  const NEW: Space := Space(map[], 0, false, map[], map[], map[])

  datatype Step =
    | Out(key: Key, v: Entry) | Begin(id: nat, key: Key, take: bool) | Check(id: nat)
    | Wake(id: nat) | Cancel(id: nat) | Inp(key: Key) | Close

  predicate Enabled(s: Space, st: Step)
  {
    match st
    case Out(_, _) => true
    case Begin(id, _, _) => id !in s.waiters
    case Check(id) => id in s.waiters && s.waiters[id].pc == Checking
    case Wake(id) => id in s.waiters && s.waiters[id].pc.Blocked? && s.waiters[id].pc.ch < s.notify
    case Cancel(id) => id in s.waiters && s.waiters[id].pc.Blocked?
    case Inp(_) => true
    case Close => true
  }

  function At(s: Space, id: nat, pc: Pc): Space
    requires id in s.waiters
  {
    s.(waiters := s.waiters[id := s.waiters[id].(pc := pc)])
  }

  function Removed(s: Space, key: Key): Space
    requires QueueOf(s.data, key) != []
  {
    s.(data := Popped(s.data, key), taken := s.taken[key := QueueOf(s.taken, key) + [s.data[key][0]]])
  }

  /** The locked section of the wait loop. */
  function Checked(s: Space, id: nat): Space
    requires id in s.waiters
  {
    var w := s.waiters[id];
    if s.closed then At(s, id, Done(Closed))
    else if QueueOf(s.data, w.key) != [] then
      var got := At(s, id, Done(Got(s.data[w.key][0], |QueueOf(s.taken, w.key)|)));
      if w.take then Removed(got, w.key) else got
    else At(s, id, Blocked(s.notify))
  }

  function Next(s: Space, st: Step): Space
    requires Enabled(s, st)
  {
    match st
    case Out(key, v) =>
      if s.closed then s
      else s.(data := s.data[key := QueueOf(s.data, key) + [v]], notify := s.notify + 1, put := s.put[key := QueueOf(s.put, key) + [v]])
    case Begin(id, key, take) => s.(waiters := s.waiters[id := Waiter(key, take, Checking)])
    case Check(id) => Checked(s, id)
    case Wake(id) => At(s, id, Checking)
    case Cancel(id) => At(s, id, Done(Cancelled))
    case Inp(key) => if QueueOf(s.data, key) == [] then s else Removed(s, key)
    case Close => if s.closed then s else s.(closed := true, notify := s.notify + 1)
  }

  // ----- the invariant -----

  /** A waiter on a channel nobody has closed has nothing to wake up for. */
  predicate Awake(s: Space, w: Waiter)
  {
    w.pc.Blocked? ==>
      && w.pc.ch <= s.notify
      && (w.pc.ch == s.notify ==> QueueOf(s.data, w.key) == [] && !s.closed)
  }

  /** What a finished In took is recorded at its own place among the taken entries. */
  predicate Recorded(s: Space, w: Waiter)
  {
    w.take && w.pc.Done? && w.pc.r.Got? ==>
      w.pc.r.pos < |QueueOf(s.taken, w.key)| && QueueOf(s.taken, w.key)[w.pc.r.pos] == w.pc.r.v
  }

  predicate SamePlace(a: Waiter, b: Waiter)
  {
    a.key == b.key && a.take && b.take && a.pc.Done? && a.pc.r.Got? && b.pc.Done? && b.pc.r.Got? && a.pc.r.pos == b.pc.r.pos
  }

  predicate Fifo(s: Space, key: Key)
  {
    QueueOf(s.taken, key) + QueueOf(s.data, key) == QueueOf(s.put, key)
  }

  ghost predicate Inv(s: Space)
  {
    && (forall id :: id in s.waiters ==> Awake(s, s.waiters[id]) && Recorded(s, s.waiters[id]))
    && (forall i, j :: i in s.waiters && j in s.waiters && SamePlace(s.waiters[i], s.waiters[j]) ==> i == j)
    && (forall key :: Fifo(s, key))
  }

  lemma RemovedKeeps(s: Space, key: Key)
    requires Inv(s) && QueueOf(s.data, key) != []
    ensures Inv(Removed(s, key))
  {
    var s' := Removed(s, key);
    forall k ensures Fifo(s', k) {
      assert Fifo(s, k);
      if k == key {
        var t, q := QueueOf(s.taken, key), s.data[key];
        assert QueueOf(s'.data, key) == q[1..];
        assert (t + [q[0]]) + q[1..] == t + q;
      }
    }
    forall id | id in s'.waiters ensures Awake(s', s'.waiters[id]) && Recorded(s', s'.waiters[id]) {
      assert Awake(s, s.waiters[id]) && Recorded(s, s.waiters[id]);
    }
  }

  lemma OutKeeps(s: Space, key: Key, v: Entry)
    requires Inv(s)
    ensures Inv(Next(s, Out(key, v)))
  {
    var s' := Next(s, Out(key, v));
    if !s.closed {
      forall k ensures Fifo(s', k) {
        assert Fifo(s, k);
      }
      forall id | id in s'.waiters ensures Awake(s', s'.waiters[id]) && Recorded(s', s'.waiters[id]) {
        assert Awake(s, s.waiters[id]) && Recorded(s, s.waiters[id]);
      }
    }
  }

  /** One waiter moves, to a place no other finished waiter has. */
  lemma WaiterKeeps(s: Space, id: nat, w: Waiter)
    requires Inv(s) && Awake(s, w) && Recorded(s, w)
    requires forall j :: j in s.waiters && j != id ==> !SamePlace(w, s.waiters[j])
    ensures Inv(s.(waiters := s.waiters[id := w]))
  {
    var s' := s.(waiters := s.waiters[id := w]);
    forall k ensures Fifo(s', k) {
      assert Fifo(s, k);
    }
    forall i | i in s'.waiters ensures Awake(s', s'.waiters[i]) && Recorded(s', s'.waiters[i]) {
      if i != id { assert Awake(s, s.waiters[i]) && Recorded(s, s.waiters[i]); }
    }
    forall i, j | i in s'.waiters && j in s'.waiters && SamePlace(s'.waiters[i], s'.waiters[j]) ensures i == j {
      assert SamePlace(s'.waiters[j], s'.waiters[i]);
    }
  }

  lemma CheckKeeps(s: Space, id: nat)
    requires Inv(s) && Enabled(s, Check(id))
    ensures Inv(Checked(s, id))
  {
    var w := s.waiters[id];
    if s.closed {
      WaiterKeeps(s, id, w.(pc := Done(Closed)));
    } else if QueueOf(s.data, w.key) != [] {
      var pos := |QueueOf(s.taken, w.key)|;
      var w' := w.(pc := Done(Got(s.data[w.key][0], pos)));
      if w.take {
        var s1 := Removed(s, w.key);
        RemovedKeeps(s, w.key);
        forall j | j in s.waiters && j != id ensures !SamePlace(w', s.waiters[j]) {
          assert Recorded(s, s.waiters[j]);
        }
        WaiterKeeps(s1, id, w');
        assert Checked(s, id) == s1.(waiters := s1.waiters[id := w']);
      } else {
        WaiterKeeps(s, id, w');
      }
    } else {
      WaiterKeeps(s, id, w.(pc := Blocked(s.notify)));
    }
  }

  lemma CloseKeeps(s: Space)
    requires Inv(s)
    ensures Inv(Next(s, Close))
  {
    var s' := Next(s, Close);
    if !s.closed {
      forall k ensures Fifo(s', k) {
        assert Fifo(s, k);
      }
      forall id | id in s'.waiters ensures Awake(s', s'.waiters[id]) && Recorded(s', s'.waiters[id]) {
        assert Awake(s, s.waiters[id]) && Recorded(s, s.waiters[id]);
      }
    }
  }

  lemma StepKeeps(s: Space, st: Step)
    requires Inv(s) && Enabled(s, st)
    ensures Inv(Next(s, st))
  {
    match st
    case Out(key, v) => OutKeeps(s, key, v);
    case Begin(id, key, take) => WaiterKeeps(s, id, Waiter(key, take, Checking));
    case Check(id) => CheckKeeps(s, id);
    case Wake(id) => WaiterKeeps(s, id, s.waiters[id].(pc := Checking));
    case Cancel(id) => WaiterKeeps(s, id, s.waiters[id].(pc := Done(Cancelled)));
    case Inp(key) => if QueueOf(s.data, key) != [] { RemovedKeeps(s, key); }
    case Close => CloseKeeps(s);
  }

  ghost predicate Runs(s: Space, steps: seq<Step>)
    decreases |steps|
  {
    steps == [] || (Enabled(s, steps[0]) && Runs(Next(s, steps[0]), steps[1..]))
  }

  ghost function After(s: Space, steps: seq<Step>): Space
    requires Runs(s, steps)
    decreases |steps|
  {
    if steps == [] then s else After(Next(s, steps[0]), steps[1..])
  }

  lemma {:induction false} RunKeeps(s: Space, steps: seq<Step>)
    requires Inv(s) && Runs(s, steps)
    ensures Inv(After(s, steps))
    decreases |steps|
  {
    if steps != [] {
      StepKeeps(s, steps[0]);
      RunKeeps(Next(s, steps[0]), steps[1..]);
    }
  }

  /** No wakeup is lost: a call that could return (its queue has an entry, or the space is
      closed) is never left blocked, it can take a step. */
  lemma NoLostWakeup(steps: seq<Step>, id: nat)
    requires Runs(NEW, steps)
    requires var s := After(NEW, steps); id in s.waiters && !s.waiters[id].pc.Done?
    requires var s := After(NEW, steps); QueueOf(s.data, s.waiters[id].key) != [] || s.closed
    ensures var s := After(NEW, steps); Enabled(s, Check(id)) || Enabled(s, Wake(id))
  {
    assert forall key :: Fifo(NEW, key);
    RunKeeps(NEW, steps);
    var s := After(NEW, steps);
    assert Awake(s, s.waiters[id]);
  }

  /** Entries leave in the order they came, each once: no two calls take the same one. */
  lemma TakenOnceInOrder(steps: seq<Step>, key: Key, i: nat, j: nat)
    requires Runs(NEW, steps)
    ensures var s := After(NEW, steps);
            && QueueOf(s.taken, key) + QueueOf(s.data, key) == QueueOf(s.put, key)
            && (i in s.waiters && j in s.waiters && i != j ==> !SamePlace(s.waiters[i], s.waiters[j]))
            && (i in s.waiters && s.waiters[i].take && s.waiters[i].pc.Done? && s.waiters[i].pc.r.Got? ==>
                  var w := s.waiters[i];
                  w.pc.r.pos < |QueueOf(s.put, w.key)| && QueueOf(s.put, w.key)[w.pc.r.pos] == w.pc.r.v)
  {
    assert forall k :: Fifo(NEW, k);
    RunKeeps(NEW, steps);
    var s := After(NEW, steps);
    assert Fifo(s, key);
    if i in s.waiters {
      assert Recorded(s, s.waiters[i]) && Fifo(s, s.waiters[i].key);
    }
  }
}
