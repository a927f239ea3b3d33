/** The component host (runtime/host.go): start in registration order with unwind, stop in
    reverse, deploy and undeploy while running. */
module Hosts {
  import opened Numerals

  type Name = string

  /** A component, with the octets it was built from. */
  datatype Component = Component(name: Name, built: seq<byte>)

  datatype Call = Start(name: Name, ok: bool) | Stop(name: Name, ok: bool)

  /** `clock` counts the outcomes drawn so far; `calls` the component calls made. */
  datatype HostState = HostState(
    order: seq<Name>, comps: map<Name, Component>, running: set<Name>, started: bool,
    clock: nat, calls: seq<Call>)

  /** Whether the k-th call into a component or factory succeeds. */
  type Oracle = nat -> bool

  datatype Outcome = Done | Duplicate | NotFound | Running | Failed

  // ----- single components -----

  function StartOne(h: HostState, name: Name, o: Oracle): HostState
  {
    var ok := o(h.clock);
    h.(clock := h.clock + 1, calls := h.calls + [Start(name, ok)], running := if ok then h.running + {name} else h.running)
  }

  function StopOne(h: HostState, name: Name, o: Oracle): HostState
  {
    h.(clock := h.clock + 1, calls := h.calls + [Stop(name, o(h.clock))], running := h.running - {name})
  }

  function Without(s: seq<Name>, name: Name): seq<Name>
  {
    if s == [] then [] else if s[0] == name then s[1..] else [s[0]] + Without(s[1..], name)
  }

  function Removed(h: HostState, name: Name): HostState
  {
    h.(comps := h.comps - {name}, running := h.running - {name}, order := Without(h.order, name))
  }

  function Added(h: HostState, c: Component): HostState
  {
    h.(comps := h.comps[c.name := c], order := h.order + [c.name])
  }

  datatype HostResult = HostResult(outcome: Outcome, h: HostState)

  function DeploySpec(h: HostState, c: Component, o: Oracle): HostResult
  {
    if c.name in h.comps then HostResult(Duplicate, h)
    else if !h.started then HostResult(Done, Added(h, c))
    else
      var h' := StartOne(Added(h, c), c.name, o);
      if o(h.clock) then HostResult(Done, h') else HostResult(Failed, Removed(h', c.name))
  }

  function UndeploySpec(h: HostState, name: Name, o: Oracle): HostResult
  {
    if name !in h.comps then HostResult(NotFound, h)
    else if name in h.running then HostResult(if o(h.clock) then Done else Failed, Removed(StopOne(h, name, o), name))
    else HostResult(Done, Removed(h, name))
  }

  // ----- whole-host start and stop -----

  /** Stop the running components among order[..n], last first. */
  function StopDown(h: HostState, n: nat, o: Oracle): HostState
    requires n <= |h.order|
    decreases n
  {
    if n == 0 then h
    else StopDown(if h.order[n - 1] in h.running then StopOne(h, h.order[n - 1], o) else h, n - 1, o)
  }

  /** Start order[i..]; on a failure unwind and stop there. */
  function StartUp(h: HostState, i: nat, o: Oracle): HostResult
    requires i <= |h.order|
    decreases |h.order| - i
  {
    if i == |h.order| then HostResult(Done, h.(started := true))
    else
      var h' := StartOne(h, h.order[i], o);
      if o(h.clock) then StartUp(h', i + 1, o)
      else HostResult(Failed, StopDown(h', |h'.order|, o))
  }

  function StartSpec(h: HostState, o: Oracle): HostResult
  {
    if h.started then HostResult(Running, h) else StartUp(h, 0, o)
  }

  function StopSpec(h: HostState, o: Oracle): HostState
  {
    StopDown(h, |h.order|, o).(started := false)
  }

  // ----- the invariant -----

  predicate NoRepeats(s: seq<Name>) { forall i, j :: 0 <= i < j < |s| ==> s[i] != s[j] }

  predicate Listed(h: HostState)
  {
    && NoRepeats(h.order)
    && (forall i :: 0 <= i < |h.order| ==> h.order[i] in h.comps)
    && (forall n :: n in h.comps ==> n in h.order && h.comps[n].name == n)
  }

  /** The registration order lists each component once, and exactly the components of a
      started host run. */
  predicate Sound(h: HostState)
  {
    Listed(h) && h.running == if h.started then h.comps.Keys else {}
  }

  lemma {:induction false} WithoutIs(s: seq<Name>, name: Name)
    requires NoRepeats(s)
    ensures NoRepeats(Without(s, name)) && forall n :: n in Without(s, name) <==> n in s && n != name
  {
    if s != [] {
      WithoutIs(s[1..], name);
      if s[0] == name {
        assert forall n :: n in s <==> n == s[0] || n in s[1..];
        assert name !in s[1..];
      } else {
        var w := Without(s[1..], name);
        assert s[0] !in s[1..];
        assert s[0] !in w;
        assert forall n :: n in s <==> n == s[0] || n in s[1..];
        assert forall n :: n in [s[0]] + w <==> n == s[0] || n in w;
      }
    }
  }

  lemma RemovedListed(h: HostState, name: Name)
    requires Listed(h)
    ensures Listed(Removed(h, name))
  {
    WithoutIs(h.order, name);
    var w := Without(h.order, name);
    forall i | 0 <= i < |w| ensures w[i] in h.comps - {name} {
      assert w[i] in w;
    }
  }

  lemma AddedListed(h: HostState, c: Component)
    requires Listed(h) && c.name !in h.comps
    ensures Listed(Added(h, c))
  {
    var a := Added(h, c);
    forall n | n in a.comps ensures n in a.order {
      if n == c.name { assert a.order[|h.order|] == n; }
    }
  }

  lemma AddRemove(h: HostState, c: Component)
    requires Listed(h) && c.name !in h.comps
    ensures Removed(Added(h, c), c.name).comps == h.comps
  {
  }

  lemma DeploySound(h: HostState, c: Component, o: Oracle)
    requires Sound(h)
    ensures Sound(DeploySpec(h, c, o).h)
    ensures DeploySpec(h, c, o).outcome.Done? ==> DeploySpec(h, c, o).h.comps == h.comps[c.name := c]
    ensures !DeploySpec(h, c, o).outcome.Done? ==> DeploySpec(h, c, o).h.comps == h.comps
    ensures (forall k :: o(k)) ==> (DeploySpec(h, c, o).outcome.Done? <==> c.name !in h.comps)
  {
    if c.name !in h.comps {
      AddedListed(h, c);
      var h' := StartOne(Added(h, c), c.name, o);
      assert Listed(h');
      RemovedListed(h', c.name);
      AddRemove(h, c);
    }
  }

  lemma UndeploySound(h: HostState, name: Name, o: Oracle)
    requires Sound(h)
    ensures Sound(UndeploySpec(h, name, o).h)
    ensures UndeploySpec(h, name, o).h.comps == h.comps - {name}
    ensures (forall k :: o(k)) ==> !UndeploySpec(h, name, o).outcome.Failed?
  {
    if name in h.comps {
      var h' := if name in h.running then StopOne(h, name, o) else h;
      assert Listed(h');
      RemovedListed(h', name);
    }
  }

  // ----- start and stop, in order -----

  /** The stop calls for names[..n], last first, with the outcomes drawn from clock on. */
  function StopCalls(names: seq<Name>, n: nat, clock: nat, o: Oracle): seq<Call>
    requires n <= |names|
  {
    if n == 0 then [] else [Stop(names[n - 1], o(clock))] + StopCalls(names, n - 1, clock + 1, o)
  }

  function StartCalls(names: seq<Name>, i: nat, n: nat, clock: nat, o: Oracle): seq<Call>
    requires i <= n <= |names|
    decreases n - i
  {
    if i == n then [] else [Start(names[i], o(clock))] + StartCalls(names, i + 1, n, clock + 1, o)
  }

  function Among(names: seq<Name>, n: nat): set<Name>
    requires n <= |names|
  {
    set i | 0 <= i < n :: names[i]
  }

  /** With exactly order[..k] running: each of them is stopped once, last first. */
  lemma {:induction false} StopDownStops(h: HostState, n: nat, k: nat, o: Oracle)
    requires NoRepeats(h.order) && k <= n <= |h.order| && h.running == Among(h.order, k)
    ensures StopDown(h, n, o) ==
            h.(running := {}, clock := h.clock + k, calls := h.calls + StopCalls(h.order, k, h.clock, o))
    decreases n
  {
    if n == 0 {
      assert h.calls + [] == h.calls;
    } else if k < n {
      assert h.order[n - 1] !in h.running;
      StopDownStops(h, n - 1, k, o);
    } else {
      var h' := StopOne(h, h.order[n - 1], o);
      assert h.order[n - 1] in h.running;
      assert h'.running == Among(h.order, n - 1);
      StopDownStops(h', n - 1, n - 1, o);
      ConcatAssoc(h.calls, [Stop(h.order[n - 1], o(h.clock))], StopCalls(h.order, n - 1, h.clock + 1, o));
    }
  }

  /** Every component of a started host is stopped exactly once, in reverse order. */
  lemma StopStopsAll(h: HostState, o: Oracle)
    requires Sound(h)
    ensures Sound(StopSpec(h, o)) && StopSpec(h, o).comps == h.comps && !StopSpec(h, o).started
    ensures StopSpec(h, o).calls ==
            h.calls + if h.started then StopCalls(h.order, |h.order|, h.clock, o) else []
  {
    if h.started {
      assert h.running == Among(h.order, |h.order|);
      StopDownStops(h, |h.order|, |h.order|, o);
    } else {
      assert h.running == Among(h.order, 0);
      StopDownStops(h, |h.order|, 0, o);
    }
  }

  /** The first k of the n outcomes from clock on that fails, or n. */
  function FirstFailure(clock: nat, n: nat, o: Oracle): (k: nat)
    ensures k <= n && (forall t :: clock <= t < clock + k ==> o(t)) && (k < n ==> !o(clock + k))
    decreases n
  {
    if n == 0 || !o(clock) then 0 else 1 + FirstFailure(clock + 1, n - 1, o)
  }

  lemma StartCallsStep(calls: seq<Call>, names: seq<Name>, i: nat, n: nat, clock: nat, o: Oracle)
    requires i < n <= |names|
    ensures (calls + [Start(names[i], o(clock))]) + StartCalls(names, i + 1, n, clock + 1, o)
            == calls + StartCalls(names, i, n, clock, o)
  {
    ConcatAssoc(calls, [Start(names[i], o(clock))], StartCalls(names, i + 1, n, clock + 1, o));
  }

  /** order[i..] all start. */
  lemma {:induction false} StartUpAll(h: HostState, i: nat, o: Oracle)
    requires i <= |h.order| && h.running == Among(h.order, i)
    requires forall t :: h.clock <= t < h.clock + |h.order| - i ==> o(t)
    ensures StartUp(h, i, o).outcome.Done?
    ensures StartUp(h, i, o).h ==
            h.(started := true, running := Among(h.order, |h.order|), clock := h.clock + |h.order| - i,
               calls := h.calls + StartCalls(h.order, i, |h.order|, h.clock, o))
    decreases |h.order| - i
  {
    if i == |h.order| {
      assert h.calls + [] == h.calls;
    } else {
      var h' := StartOne(h, h.order[i], o);
      assert h'.running == Among(h.order, i + 1);
      StartUpAll(h', i + 1, o);
      StartCallsStep(h.calls, h.order, i, |h.order|, h.clock, o);
    }
  }

  /** A start from order[i] on that fails at order[f]: everything started is stopped again. */
  ghost predicate FailsAt(h: HostState, i: nat, f: nat, o: Oracle)
    requires i <= f < |h.order|
  {
    var r := StartUp(h, i, o);
    && r.outcome.Failed?
    && r.h == h.(running := {}, clock := h.clock + f - i + 1 + f,
                 calls := h.calls + StartCalls(h.order, i, f + 1, h.clock, o) + StopCalls(h.order, f, h.clock + f - i + 1, o))
  }

  lemma {:induction false} StartUpFails(h: HostState, i: nat, f: nat, o: Oracle)
    requires NoRepeats(h.order) && i <= f < |h.order| && h.running == Among(h.order, i)
    requires (forall t :: h.clock <= t < h.clock + f - i ==> o(t)) && !o(h.clock + f - i)
    ensures FailsAt(h, i, f, o)
    decreases f - i
  {
    if i == f {
      StartFailsAt(h, i, o);
    } else {
      var h' := Started(h, i, o);
      StartUpFails(h', i + 1, f, o);
      StartsThenFails(h, h', i, f, o);
    }
  }

  lemma Started(h: HostState, i: nat, o: Oracle) returns (h': HostState)
    requires i < |h.order| && h.running == Among(h.order, i) && o(h.clock)
    ensures h' == StartOne(h, h.order[i], o) && h'.running == Among(h.order, i + 1)
    ensures h'.order == h.order && h'.clock == h.clock + 1
  {
    h' := StartOne(h, h.order[i], o);
  }

  lemma StartFailsAt(h: HostState, i: nat, o: Oracle)
    requires NoRepeats(h.order) && i < |h.order| && h.running == Among(h.order, i) && !o(h.clock)
    ensures FailsAt(h, i, i, o)
  {
    var h' := StartOne(h, h.order[i], o);
    StartCallsStep(h.calls, h.order, i, i + 1, h.clock, o);
    StopDownStops(h', |h.order|, i, o);
    assert StartCalls(h.order, i + 1, i + 1, h.clock + 1, o) == [];
    assert h'.calls + [] == h'.calls;
  }

  lemma StartsThenFails(h: HostState, h': HostState, i: nat, f: nat, o: Oracle)
    requires i < f < |h.order| && o(h.clock) && h' == StartOne(h, h.order[i], o) && FailsAt(h', i + 1, f, o)
    ensures FailsAt(h, i, f, o)
  {
    StartCallsStep(h.calls, h.order, i, f + 1, h.clock, o);
  }

  /** A start either runs everything, in order, or fails at one component and has stopped
      exactly the ones before it, in reverse. */
  lemma StartStartsAllOrNone(h: HostState, o: Oracle)
    requires Sound(h) && !h.started
    ensures var r := StartSpec(h, o); var n := |h.order|; var k := FirstFailure(h.clock, n, o);
            && Sound(r.h) && r.h.comps == h.comps
            && (r.outcome.Done? <==> k == n) && r.h.started == r.outcome.Done?
            && (k == n ==> r.h.calls == h.calls + StartCalls(h.order, 0, n, h.clock, o))
            && (k < n ==> r.h.calls == h.calls + StartCalls(h.order, 0, k + 1, h.clock, o)
                                       + StopCalls(h.order, k, h.clock + k + 1, o))
  {
    var n := |h.order|;
    var k := FirstFailure(h.clock, n, o);
    assert h.running == Among(h.order, 0);
    if k == n {
      assert Among(h.order, n) == h.comps.Keys;
      StartUpAll(h, 0, o);
    } else {
      StartUpFails(h, 0, k, o);
    }
  }
}
