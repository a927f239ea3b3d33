/** The retrying stage wrapper (flow/retry.go) and the in-memory idempotency store
    (flow/idempotency.go). */
module Retries {
  import opened Wrappers
  import opened Flows

  /** Retryable is None where the policy leaves it nil: every error then is. */
  datatype Policy = Policy(maxAttempts: int, retryable: Option<Error -> bool>)

  function Attempts(p: Policy): (n: nat)
    ensures n >= 1
  {
    if p.maxAttempts <= 0 then 3 else p.maxAttempts
  }

  predicate Retryable(p: Policy, e: Error) { p.retryable.None? || p.retryable.value(e) }

  /** The inner stage's a-th Prepare, and whether the context ended in the backoff after it. */
  datatype Tries = Tries(inner: nat -> Reply, cancelled: nat -> Option<int>)

  function ExchangeAfter(t: Tries, ex: Exchange, a: nat): Exchange
  {
    if a == 0 then ex else Noted(ExchangeAfter(t, ex, a - 1), t.inner(a))
  }

  /** An attempt that is not to be repeated: it worked, was aborted, or its error is final. */
  predicate Settled(t: Tries, p: Policy, ex: Exchange, a: nat)
  {
    t.inner(a).err.None? || ExchangeAfter(t, ex, a).aborted || !Retryable(p, t.inner(a).err.value)
  }

  predicate LastTry(t: Tries, p: Policy, ex: Exchange, a: nat)
  {
    Settled(t, p, ex, a) || a == Attempts(p) || t.cancelled(a).Some?
  }

  /** Prepare stops at the first attempt that settles, exhausts the policy or is cut short by
      the context; it returns that attempt's result, or the context's error. */
  method Prepare(t: Tries, p: Policy, ex0: Exchange) returns (res: Reply, err: Option<Error>, ex: Exchange, made: nat)
    ensures 1 <= made <= Attempts(p) && LastTry(t, p, ex0, made)
    ensures forall a :: 1 <= a < made ==> !LastTry(t, p, ex0, a)
    ensures ex == ExchangeAfter(t, ex0, made) && res == t.inner(made)
    ensures err == if !Settled(t, p, ex0, made) && made < Attempts(p) then Some(Cancelled(t.cancelled(made).value))
                   else t.inner(made).err
  {
    ex := ex0;
    made := 1;
    while true
      invariant 1 <= made <= Attempts(p) && ex == ExchangeAfter(t, ex0, made - 1)
      invariant forall a :: 1 <= a < made ==> !LastTry(t, p, ex0, a)
      decreases Attempts(p) - made
    {
      res := t.inner(made);
      ex, err := Noted(ex, res), res.err;
      if err.None? || ex.aborted || !Retryable(p, err.value) { return; }
      if made == Attempts(p) { return; }
      if t.cancelled(made).Some? { return res, Some(Cancelled(t.cancelled(made).value)), ex, made; }
      made := made + 1;
    }
  }

  /** MemoryStore: what is stored and what is handed out are clones; a nil response is
      stored as such. */
  class MemoryStore {
    const clone: Message -> Message
    var resp: map<string, Option<Message>>

    constructor (clone: Message -> Message)
      ensures this.clone == clone && resp == map[]
    {
      this.clone, resp := clone, map[];
    }

    method Lookup(key: string) returns (m: Option<Message>, found: bool)
      ensures found <==> key in resp
      ensures m == if key in resp then Copied(clone, resp[key]) else None
    {
      if key !in resp { return None, false; }
      if resp[key].None? { return None, true; }
      return Some(clone(resp[key].value)), true;
    }

    method Store(key: string, m: Option<Message>)
      modifies this
      ensures resp == old(resp)[key := Copied(clone, m)]
    {
      var kept := m;
      if kept.Some? { kept := Some(clone(kept.value)); }
      resp := resp[key := kept];
    }
  }

  function Copied(clone: Message -> Message, m: Option<Message>): Option<Message>
  {
    if m.Some? then Some(clone(m.value)) else None
  }
}
