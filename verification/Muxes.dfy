/** The request/response multiplexer (mux/mux.go) as interleaved steps: callers in Request,
    the reader goroutine, timeouts, link failures and Close. */
module Muxes {
  import opened Wrappers

  type Key = string
  type Frame = seq<int>
  type Id = nat

  datatype Cause = Closed | ReadError(code: int)

  datatype Err = DuplicateKey | SendError | Cancelled | TimedOut | Stopped(cause: Cause)

  datatype Outcome = Response(no: nat) | Failed(e: Err)

  /** Where a Request call is: registered and sending, in its select, past it with the
      deferred delete to run, or returned. */
  datatype Pc = Sending | Waiting | Leaving(r: Outcome) | Returned(r: Outcome)

  /** A Request call with its channel. `routed` is the frame the reader took it off the
      pending map for; `cut`, that another call's deferred delete took it off. */
  datatype Req = Req(key: Key, pc: Pc, chan: seq<nat>, routed: Option<nat>, cut: bool)

  datatype Reader = Idle | Got(no: nat) | Holding(no: nat, id: Id) | Passing(no: nat) | Ended

  /** What became of a received frame: in the reader's hands, sent to a call, or handed to
      the unsolicited path. */
  datatype Fate = InHand | To(id: Id) | Aside

  datatype Mux = Mux(
    pending: map<Key, Id>, reqs: map<Id, Req>, reader: Reader,
    received: seq<Frame>, fates: seq<Fate>, handled: seq<nat>, cause: Option<Cause>)

  /** The response keyer: None where a frame has no key. */
  type Keyer = Frame -> Option<Key>

  const NEW: Mux := Mux(map[], map[], Idle, [], [], [], None)

  datatype Step =
    | Register(id: Id, key: Key) | SendDone(id: Id) | SendFail(id: Id)
    | TakeResponse(id: Id) | GiveUp(id: Id, e: Err) | SeeDone(id: Id) | Leave(id: Id)
    | Receive(frame: Frame) | Lookup | Deliver | HandOff | ReadFail(code: int) | Close

  function At(m: Mux, id: Id, pc: Pc): Mux
    requires id in m.reqs
  {
    m.(reqs := m.reqs[id := m.reqs[id].(pc := pc)])
  }

  /** The first stop wins. */
  function StopWith(m: Mux, cause: Cause): Mux { if m.cause.Some? then m else m.(cause := Some(cause)) }

  predicate Enabled(m: Mux, s: Step)
  {
    match s
    case Register(id, _) => id !in m.reqs
    case SendDone(id) => id in m.reqs && m.reqs[id].pc == Sending
    case SendFail(id) => id in m.reqs && m.reqs[id].pc == Sending
    case TakeResponse(id) => id in m.reqs && m.reqs[id].pc == Waiting && m.reqs[id].chan != []
    case GiveUp(id, e) => id in m.reqs && m.reqs[id].pc == Waiting && (e == Cancelled || e == TimedOut)
    case SeeDone(id) => id in m.reqs && m.reqs[id].pc == Waiting && m.cause.Some?
    case Leave(id) => id in m.reqs && m.reqs[id].pc.Leaving?
    case Receive(_) => m.reader == Idle
    case Lookup => m.reader.Got? && m.reader.no < |m.received| == |m.fates|
    case Deliver => m.reader.Holding? && m.reader.id in m.reqs
    case HandOff => m.reader.Passing? && m.reader.no < |m.fates|
    case ReadFail(_) => m.reader == Idle
    case Close => true
  }

  function RegisterNext(m: Mux, id: Id, key: Key): Mux
  {
    if key in m.pending then m.(reqs := m.reqs[id := Req(key, Returned(Failed(DuplicateKey)), [], None, false)])
    else m.(reqs := m.reqs[id := Req(key, Sending, [], None, false)], pending := m.pending[key := id])
  }

  /** The deferred delete is by key: it removes whoever is registered under it now. */
  function LeaveNext(m: Mux, id: Id): Mux
    requires id in m.reqs && m.reqs[id].pc.Leaving?
  {
    var r := m.reqs[id];
    var left := m.reqs[id := r.(pc := Returned(r.pc.r))];
    var other := if r.key in m.pending then m.pending[r.key] else id;
    m.(pending := m.pending - {r.key},
       reqs := if other != id && other in left then left[other := left[other].(cut := true)] else left)
  }

  function LookupNext(m: Mux, keyer: Keyer): Mux
    requires Enabled(m, Lookup)
  {
    var n := m.reader.no;
    var key := keyer(m.received[n]);
    if key.None? || key.value !in m.pending then m.(reader := Passing(n))
    else
      var id := m.pending[key.value];
      m.(pending := m.pending - {key.value}, reader := Holding(n, id), fates := m.fates[n := To(id)],
         reqs := if id in m.reqs then m.reqs[id := m.reqs[id].(routed := Some(n))] else m.reqs)
  }

  function Next(m: Mux, s: Step, keyer: Keyer): Mux
    requires Enabled(m, s)
  {
    match s
    case Register(id, key) => RegisterNext(m, id, key)
    case SendDone(id) => At(m, id, Waiting)
    case SendFail(id) => At(m, id, Leaving(Failed(SendError)))
    case TakeResponse(id) =>
      (var r := m.reqs[id]; m.(reqs := m.reqs[id := r.(pc := Leaving(Response(r.chan[0])), chan := r.chan[1..])]))
    case GiveUp(id, e) => At(m, id, Leaving(Failed(e)))
    case SeeDone(id) => At(m, id, Leaving(Failed(Stopped(m.cause.value))))
    case Leave(id) => LeaveNext(m, id)
    case Receive(frame) =>
      m.(reader := Got(|m.received|), received := m.received + [frame], fates := m.fates + [InHand])
    case Lookup => LookupNext(m, keyer)
    case Deliver =>
      (var id := m.reader.id; var r := m.reqs[id];
      m.(reader := Idle, reqs := m.reqs[id := r.(chan := r.chan + [m.reader.no])]))
    case HandOff =>
      m.(reader := Idle, handled := m.handled + [m.reader.no], fates := m.fates[m.reader.no := Aside])
    case ReadFail(code) => StopWith(m.(reader := Ended), ReadError(code))
    case Close => StopWith(m, Closed)
  }

  // ----- the invariant -----

  predicate Live(r: Req) { !r.pc.Returned? }

  predicate Armed(m: Mux, id: Id)
  {
    id in m.reqs && m.reqs[id].key in m.pending && m.pending[m.reqs[id].key] == id
  }

  function ResultOf(pc: Pc): Option<Outcome>
  {
    match pc
    case Sending => None
    case Waiting => None
    case Leaving(r) => Some(r)
    case Returned(r) => Some(r)
  }

  /** The frame routed to a call is still with the reader, in its channel, or taken. */
  predicate ChannelOk(m: Mux, id: Id, r: Req)
  {
    var taken := ResultOf(r.pc).Some? && ResultOf(r.pc).value.Response?;
    && (r.chan == [] || (r.routed.Some? && r.chan == [r.routed.value]))
    && (m.reader.Holding? && m.reader.id == id ==> r.routed == Some(m.reader.no) && r.chan == [] && !taken)
    && (taken ==> r.routed == Some(ResultOf(r.pc).value.no) && r.chan == [])
  }

  predicate RouteOk(m: Mux, id: Id, r: Req, keyer: Keyer)
  {
    r.routed.Some? ==>
      && r.routed.value < |m.received| == |m.fates|
      && m.fates[r.routed.value] == To(id) && keyer(m.received[r.routed.value]) == Some(r.key)
  }

  predicate CallOk(m: Mux, id: Id, keyer: Keyer)
    requires id in m.reqs
  {
    var r := m.reqs[id];
    && (Armed(m, id) <==> Live(r) && r.routed.None? && !r.cut)
    && ChannelOk(m, id, r) && RouteOk(m, id, r, keyer)
    && (ResultOf(r.pc).Some? && ResultOf(r.pc).value.Failed? && ResultOf(r.pc).value.e.Stopped? ==>
          m.cause == Some(ResultOf(r.pc).value.e.cause))
  }

  /** A frame's fate is sealed except in the reader's hands; a frame sent to a call is
      routed to that call; the unsolicited path sees exactly the frames set aside. */
  predicate FrameOk(m: Mux, n: nat)
    requires n < |m.fates|
  {
    match m.fates[n]
    case InHand => n == |m.fates| - 1 && (m.reader == Got(n) || m.reader == Passing(n))
    case To(id) => id in m.reqs && m.reqs[id].routed == Some(n)
    case Aside => n in m.handled
  }

  predicate ReaderOk(m: Mux)
  {
    match m.reader
    case Idle => true
    case Got(n) => |m.fates| == n + 1 && m.fates[n] == InHand
    case Passing(n) => |m.fates| == n + 1 && m.fates[n] == InHand
    case Holding(n, id) => |m.fates| == n + 1 && m.fates[n] == To(id) && id in m.reqs
    case Ended => true
  }

  predicate HandledOk(m: Mux)
  {
    && (forall i :: 0 <= i < |m.handled| ==> m.handled[i] < |m.fates| && m.fates[m.handled[i]] == Aside)
    && (forall i, j :: 0 <= i < j < |m.handled| ==> m.handled[i] < m.handled[j])
  }

  ghost predicate Inv(m: Mux, keyer: Keyer)
  {
    && |m.received| == |m.fates|
    && (forall k :: k in m.pending ==> m.pending[k] in m.reqs && m.reqs[m.pending[k]].key == k)
    && (forall id :: id in m.reqs ==> CallOk(m, id, keyer))
    && (forall n :: 0 <= n < |m.fates| ==> FrameOk(m, n))
    && ReaderOk(m) && HandledOk(m)
  }
}
