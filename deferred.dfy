/**
 * The settle-once signal (`Deferred`): a promise together with the means to
 * settle it, and a readable record of how it settled. The first of
 * `resolve`/`reject` wins; every later call is ignored.
 */
module Signals {
  import opened Common

  datatype DeferredState = Pending | Resolved | Rejected

  /** What a `Deferred` exposes: `state`, `value` and `error`. */
  datatype Cell<T> = Cell(state: DeferredState, value: Option<T>, error: Option<Error>)

  function Initial<T>(): Cell<T> {
    Cell(Pending, None, None)
  }

  predicate Completed<T>(c: Cell<T>) {
    c.state != Pending
  }

  /** `resolve(v)`: only a pending cell changes; it keeps `error` as it was. */
  function ResolveCell<T>(c: Cell<T>, v: T): Cell<T> {
    if c.state == Pending then Cell(Resolved, Some(v), c.error) else c
  }

  /** `reject(reason?)`: an omitted reason leaves `error` undefined. */
  function RejectCell<T>(c: Cell<T>, reason: Option<Error>): Cell<T> {
    if c.state == Pending then Cell(Rejected, c.value, reason) else c
  }

  datatype Settle<T> = Resolve(v: T) | Reject(reason: Option<Error>)

  function Apply<T>(c: Cell<T>, op: Settle<T>): Cell<T> {
    match op
    case Resolve(v) => ResolveCell(c, v)
    case Reject(r) => RejectCell(c, r)
  }

  /** The cell after a sequence of settle calls, in call order. */
  function ApplyAll<T>(c: Cell<T>, ops: seq<Settle<T>>): Cell<T>
    decreases |ops|
  {
    if ops == [] then c else ApplyAll(Apply(c, ops[0]), ops[1..])
  }

  /** The cells a `Deferred` can be in: `value` is set only by a resolve, `error` only by a reject. */
  predicate Reachable<T>(c: Cell<T>) {
    && (c.state == Pending ==> c.value.None? && c.error.None?)
    && (c.state == Resolved ==> c.value.Some? && c.error.None?)
    && (c.state == Rejected ==> c.value.None?)
  }

  /** Once settled, no call changes anything: the state never returns to pending. */
  lemma {:induction false} SettledIsFinal<T>(c: Cell<T>, ops: seq<Settle<T>>)
    requires Completed(c)
    ensures ApplyAll(c, ops) == c
    decreases |ops|
  {
    if ops != [] {
      SettledIsFinal(Apply(c, ops[0]), ops[1..]);
    }
  }

  /** The first settle call decides the outcome, whatever follows it. */
  lemma {:induction false} FirstWriterWins<T>(ops: seq<Settle<T>>)
    requires ops != []
    ensures ApplyAll(Initial(), ops) == Apply(Initial(), ops[0])
    ensures Completed(ApplyAll(Initial(), ops))
    ensures ops[0].Resolve? ==> ApplyAll(Initial(), ops) == Cell(Resolved, Some(ops[0].v), None)
    ensures ops[0].Reject? ==> ApplyAll(Initial(), ops) == Cell(Rejected, None, ops[0].reason)
  {
    SettledIsFinal(Apply(Initial<T>(), ops[0]), ops[1..]);
  }

  /** Every cell reached from the initial one by settle calls is well formed. */
  lemma {:induction false} ReachableAfter<T>(c: Cell<T>, ops: seq<Settle<T>>)
    requires Reachable(c)
    ensures Reachable(ApplyAll(c, ops))
    ensures Completed(c) ==> ApplyAll(c, ops) == c
    decreases |ops|
  {
    if ops != [] {
      ReachableAfter(Apply(c, ops[0]), ops[1..]);
    }
  }

  class Deferred<T> {
    var state: DeferredState
    var value: Option<T>
    var error: Option<Error>

    function Snapshot(): Cell<T>
      reads this
    {
      Cell(state, value, error)
    }

    /** `isCompleted` holds exactly when the state is no longer pending. */
    function IsCompleted(): (r: bool)
      reads this
      ensures r <==> Completed(Snapshot())
    {
      state != Pending
    }

    constructor()
      ensures Snapshot() == Initial()
      ensures !IsCompleted()
    {
      state, value, error := Pending, None, None;
    }

    method Resolve(v: T)
      modifies this
      ensures Snapshot() == ResolveCell(old(Snapshot()), v)
    {
      if state != Pending {
        return;
      }
      state := Resolved;
      value := Some(v);
    }

    method Reject(reason: Option<Error>)
      modifies this
      ensures Snapshot() == RejectCell(old(Snapshot()), reason)
    {
      if state != Pending {
        return;
      }
      state := Rejected;
      error := reason;
    }
  }
}
