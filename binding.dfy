/**
 * `Binding`: one memoised value (the promise its producer returned), the
 * bindings recorded as its dependents, and a one-shot destroy that waits for
 * every dependent's `destroyed()` signal before running the finalizer.
 *
 * `destroy` is an async function; its suspended continuation is the `stage`
 * field, and each `await` it passes is one call of `Step` (or of
 * `FinalizerSettled`, when the finalizer's own promise settles). The value
 * promise and the `destroyed()` signal are held as `Cell`s, settled through
 * the `Deferred` model's `ResolveCell` and `RejectCell`.
 */
module Bindings {
  import opened Common
  import opened Signals

  /**
   * Where `destroy` stands: not begun; suspended on `Promise.all` of the
   * dependents' `destroyed()`; suspended on the value; suspended on the
   * finalizer's promise; done (the `finally` has resolved `destroyed()`).
   */
  datatype Stage<A> =
    | Live
    | AwaitingDependents(args: A)
    | AwaitingValue(args: A)
    | AwaitingFinalizer
    | Finished

  /** One invocation of the finalizer: the value, then the destroy arguments. */
  datatype FinalizerCall<A> = FinalizerCall(value: Value, args: A)

  class Binding<A> {
    /** The producer's promise, started before the binding was constructed; others settle it. */
    var value: Cell<Value>
    /** Whether an `onDestroy` finalizer was supplied. */
    const hasFinalizer: bool
    /** `destroyed()`: resolved by the `finally` of `destroy`, never rejected. */
    var destroyed: Cell<()>
    var dependents: seq<Binding<A>>
    var isDestroyed: bool
    var stage: Stage<A>
    /** The arguments of the first `destroy` call. */
    ghost var destroyArgs: Option<A>
    /** Every call made to the finalizer so far. */
    ghost var finalizerCalls: seq<FinalizerCall<A>>

    ghost predicate Valid()
      reads this
    {
      && Reachable(value)
      && Reachable(destroyed)
      && destroyed.state != Rejected
      && (isDestroyed <==> !stage.Live?)
      && (isDestroyed <==> destroyArgs.Some?)
      && (stage.AwaitingDependents? || stage.AwaitingValue? ==> destroyArgs == Some(stage.args))
      && (stage.Finished? <==> destroyed.state == Resolved)
      && (stage.AwaitingFinalizer? || stage.Finished? ==> value.state != Pending)
      && |finalizerCalls| <= 1
      && (finalizerCalls != [] ==>
            && hasFinalizer
            && (stage.AwaitingFinalizer? || stage.Finished?)
            && value.state == Resolved
            && finalizerCalls[0] == FinalizerCall(value.value.value, destroyArgs.value))
      && (stage.AwaitingFinalizer? ==> finalizerCalls != [])
      && (stage.Finished? && hasFinalizer && value.state == Resolved ==> finalizerCalls != [])
    }

    /** `destroy` has got past its wait for the dependents. */
    predicate PastDependents()
      reads this
    {
      stage.AwaitingValue? || stage.AwaitingFinalizer? || stage.Finished?
    }

    /** Every recorded dependent's `destroyed()` has settled. */
    predicate DependentsDestroyed()
      reads this, set d | d in dependents
    {
      forall d :: d in dependents ==> d.destroyed.state == Resolved
    }

    constructor(value: Cell<Value>, hasFinalizer: bool)
      requires Reachable(value)
      ensures Valid()
      ensures this.value == value && this.hasFinalizer == hasFinalizer
      ensures dependents == [] && stage == Live && !isDestroyed
      ensures finalizerCalls == [] && destroyed == Initial()
    {
      this.value := value;
      this.hasFinalizer := hasFinalizer;
      destroyed := Initial();
      dependents := [];
      isDestroyed := false;
      stage := Live;
      destroyArgs := None;
      finalizerCalls := [];
    }

    /**
     * `get()`: the producer's promise while the binding is live; a thrown
     * "This binding has been destroyed." once destroy has begun.
     */
    function Get(): (r: Result<Cell<Value>>)
      reads this
      ensures r.Ok? <==> !isDestroyed
      ensures r.Ok? ==> r.value == value
      ensures r.Err? ==> r.error == Raised(BindingDestroyedMessage)
    {
      GetOutcome(isDestroyed, value)
    }

    /** `addDependent(d)`: appends without de-duplication while live, throws afterwards. */
    method AddDependent(d: Binding<A>) returns (r: Result<()>)
      requires Valid()
      modifies this
      ensures Valid()
      ensures r.Ok? <==> !old(isDestroyed)
      ensures r.Ok? ==> dependents == old(dependents) + [d]
      ensures r.Err? ==> r.error == Raised(BindingDestroyedMessage) && dependents == old(dependents)
      ensures stage == old(stage) && isDestroyed == old(isDestroyed) && value == old(value)
      ensures destroyed == old(destroyed)
      ensures destroyArgs == old(destroyArgs) && finalizerCalls == old(finalizerCalls)
    {
      if isDestroyed {
        return Err(Raised(BindingDestroyedMessage));
      }
      dependents := dependents + [d];
      r := Ok(());
    }

    /**
     * `destroy(...args)`, up to its first suspension: the first call marks the
     * binding destroyed and starts waiting for the dependents; later calls
     * return the same pending work and change nothing. It never touches the
     * dependents themselves.
     */
    method Destroy(args: A)
      requires Valid()
      modifies this
      ensures Valid()
      ensures isDestroyed
      ensures old(stage).Live? ==> stage == AwaitingDependents(args) && destroyArgs == Some(args)
      ensures !old(stage).Live? ==> stage == old(stage) && destroyArgs == old(destroyArgs)
      ensures dependents == old(dependents) && finalizerCalls == old(finalizerCalls)
      ensures value == old(value) && destroyed == old(destroyed)
    {
      if stage.Live? {
        isDestroyed := true;
        stage := AwaitingDependents(args);
        destroyArgs := Some(args);
      }
    }

    /** The producer's promise settles (the environment's move); a settled promise stays as it is. */
    method ValueSettles(outcome: Result<Value>)
      requires Valid()
      modifies this
      ensures Valid()
      ensures outcome.Ok? ==> value == ResolveCell(old(value), outcome.value)
      ensures outcome.Err? ==> value == RejectCell(old(value), Some(outcome.error))
      ensures stage == old(stage) && dependents == old(dependents) && destroyed == old(destroyed)
      ensures isDestroyed == old(isDestroyed) && destroyArgs == old(destroyArgs)
      ensures finalizerCalls == old(finalizerCalls)
    {
      match outcome
      case Ok(v) => value := ResolveCell(value, v);
      case Err(e) => value := RejectCell(value, Some(e));
    }

    /**
     * Resume the suspended `destroy` by one await, if what it waits for has
     * settled. Past the dependents only once all their `destroyed()` have
     * settled; then on the value: a rejected value skips the finalizer, a
     * resolved one calls it with the value and the destroy arguments (reading
     * the stored value, as the tests expect). `finalizerSuspends` says whether
     * the finalizer's returned promise is still pending; a finalizer that
     * returns or throws at once lets destroy finish in the same step. Errors
     * are swallowed: every path ends with `destroyed()` resolved.
     */
    method Step(finalizerSuspends: bool) returns (progressed: bool)
      requires Valid()
      modifies this
      ensures Valid()
      ensures dependents == old(dependents) && isDestroyed == old(isDestroyed)
      ensures destroyArgs == old(destroyArgs) && value == old(value)
      ensures !progressed ==> stage == old(stage) && finalizerCalls == old(finalizerCalls)
      ensures !progressed ==> destroyed == old(destroyed)
      ensures old(stage).Live? || old(stage).AwaitingFinalizer? || old(stage).Finished? ==> !progressed
      ensures old(stage).AwaitingDependents? ==>
        && (progressed <==> old(DependentsDestroyed()))
        && (progressed ==> stage == AwaitingValue(old(stage).args) && finalizerCalls == old(finalizerCalls))
      ensures old(stage).AwaitingValue? ==>
        && (progressed <==> value.state != Pending)
        && (value.state == Rejected ==> stage == Finished && finalizerCalls == old(finalizerCalls))
        && (value.state == Resolved ==>
              && finalizerCalls == old(finalizerCalls) +
                   (if hasFinalizer then [FinalizerCall(value.value.value, old(stage).args)] else [])
              && stage == (if hasFinalizer && finalizerSuspends then AwaitingFinalizer else Finished))
    {
      progressed := false;
      match stage
      case AwaitingDependents(args) =>
        if DependentsDestroyed() {
          stage := AwaitingValue(args);
          progressed := true;
        }
      case AwaitingValue(args) =>
        if value.state == Rejected {
          stage := Finished;
          destroyed := ResolveCell(destroyed, ());
          progressed := true;
        } else if value.state == Resolved {
          if hasFinalizer {
            finalizerCalls := finalizerCalls + [FinalizerCall(value.value.value, args)];
          }
          if hasFinalizer && finalizerSuspends {
            stage := AwaitingFinalizer;
          } else {
            stage := Finished;
            destroyed := ResolveCell(destroyed, ());
          }
          progressed := true;
        }
      case _ =>
    }

    /** The finalizer's promise settles (fulfilled or rejected alike): destroy finishes. */
    method FinalizerSettled() returns (progressed: bool)
      requires Valid()
      modifies this
      ensures Valid()
      ensures dependents == old(dependents) && isDestroyed == old(isDestroyed)
      ensures destroyArgs == old(destroyArgs) && finalizerCalls == old(finalizerCalls)
      ensures value == old(value)
      ensures progressed <==> old(stage).AwaitingFinalizer?
      ensures progressed ==> stage == Finished && destroyed.state == Resolved
      ensures !progressed ==> stage == old(stage) && destroyed == old(destroyed)
    {
      progressed := stage.AwaitingFinalizer?;
      if progressed {
        stage := Finished;
        destroyed := ResolveCell(destroyed, ());
      }
    }
  }

  /** What `get()` answers, given the destroyed flag it reads and the producer's promise. */
  function GetOutcome(isDestroyed: bool, valueCell: Cell<Value>): Result<Cell<Value>> {
    if isDestroyed then Err(Raised(BindingDestroyedMessage)) else Ok(valueCell)
  }

  /**
   * `destroy` as the source writes it: the flag is set first, so the
   * following `this.get()` throws, the `catch` swallows it and the `finally`
   * resolves `destroyed()`; the finalizer call is never reached.
   */
  datatype DestroyEffect = DestroyEffect(finalizerCalled: bool, destroyedResolved: bool)

  function DestroyAsWritten(hasFinalizer: bool, valueCell: Cell<Value>): (e: DestroyEffect)
    ensures e.finalizerCalled ==> hasFinalizer && valueCell.state == Resolved
  {
    var isDestroyed := true;
    var got := GetOutcome(isDestroyed, valueCell);
    DestroyEffect(hasFinalizer && got.Ok? && valueCell.state == Resolved, true)
  }

  /** As written, no binding's finalizer is ever called, whatever its value. */
  lemma AsWrittenNeverFinalizes(hasFinalizer: bool, v: Value)
    ensures DestroyAsWritten(hasFinalizer, Cell(Resolved, Some(v), None)) == DestroyEffect(false, true)
  {
  }
}
