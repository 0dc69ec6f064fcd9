/**
 * `once(callback)`: a wrapper that invokes the callback on its first call
 * only and captures what that call did, the returned result or the thrown
 * error. Every call, the first included, hands back the capture: the result
 * is returned, the error thrown again. The capture is a wrapper record, so a
 * falsy result counts as captured like any other.
 */
module Memo {
  import opened Common

  class Once<P, R> {
    /** The wrapped callback: what it returns or throws for given arguments. */
    const callback: P -> Result<R>
    /** The closure variable `capture`, unset until the first call. */
    var capture: Option<Result<R>>
    /** The arguments of every invocation of the callback. */
    ghost var invocations: seq<P>

    ghost predicate Valid()
      reads this
    {
      && |invocations| <= 1
      && (capture.None? <==> invocations == [])
      && (capture.Some? ==> capture.value == callback(invocations[0]))
    }

    constructor(callback: P -> Result<R>)
      ensures Valid() && this.callback == callback
      ensures capture == None && invocations == []
    {
      this.callback := callback;
      capture := None;
      invocations := [];
    }

    /**
     * One call of the wrapped function. The first invokes the callback with
     * these arguments; later calls ignore theirs and invoke nothing.
     */
    method Call(args: P) returns (r: Result<R>)
      requires Valid()
      modifies this
      ensures Valid()
      ensures capture == CallOn(callback, old(capture), args) && r == capture.value
      ensures old(capture).None? ==> invocations == [args]
      ensures old(capture).Some? ==> invocations == old(invocations)
    {
      if capture.None? {
        capture := Some(callback(args));
        invocations := [args];
      }
      r := capture.value;
    }
  }

  /** One call on a capture: the capture afterwards and what the call hands back. */
  function CallOn<P, R>(callback: P -> Result<R>, capture: Option<Result<R>>, args: P): (c: Option<Result<R>>)
    ensures c.Some?
    ensures capture.Some? ==> c == capture
  {
    if capture.None? then Some(callback(args)) else capture
  }

  /** What successive calls hand back, starting from `capture`. */
  function Replies<P, R>(callback: P -> Result<R>, capture: Option<Result<R>>, calls: seq<P>): (rs: seq<Result<R>>)
    ensures |rs| == |calls|
    decreases |calls|
  {
    if calls == [] then []
    else
      var c := CallOn(callback, capture, calls[0]);
      [c.value] + Replies(callback, c, calls[1..])
  }

  /**
   * Calls of a fresh wrapper all hand back the outcome of the callback on
   * the first call's arguments, whatever arguments the later calls pass.
   */
  lemma {:induction false} FirstCallDecides<P, R>(callback: P -> Result<R>, calls: seq<P>)
    requires calls != []
    ensures forall i :: 0 <= i < |calls| ==> Replies(callback, None, calls)[i] == callback(calls[0])
  {
    CapturedIsRepeated(callback, callback(calls[0]), calls[1..]);
  }

  /** Once captured, every call hands back the capture. */
  lemma {:induction false} CapturedIsRepeated<P, R>(callback: P -> Result<R>, captured: Result<R>, calls: seq<P>)
    ensures forall i :: 0 <= i < |calls| ==> Replies(callback, Some(captured), calls)[i] == captured
    decreases |calls|
  {
    if calls != [] {
      CapturedIsRepeated(callback, captured, calls[1..]);
    }
  }
}
