/**
 * `RootContext`: the application-wide container. It owns the root table,
 * starts one `BindingContext` per `run`, tears that request down with the
 * body's outcome, and reports the outcome unchanged. Its once-guarded
 * `destroy` refuses further runs, waits for the `destroyed()` of every
 * request running at that moment, and only then destroys the root table.
 *
 * The ambient request (the `AsyncLocalStorage` store) is an explicit
 * `Option<BindingContext>` parameter of the static entry points.
 */
module RootContexts {
  import opened Common
  import opened Signals
  import opened Bindings
  import opened BindingMaps
  import opened Resolution
  import opened BindingContexts

  /** Where the root's once-guarded `destroy` stands; `waiting` is the requests it waits for. */
  datatype RootStage =
    | RootLive
    | AwaitingRequests(waiting: set<BindingContext>)
    | AwaitingRootMap
    | RootDone

  /** The outcome `run` hands to the request's destroy: success with the result, or the error. */
  function RequestResultOf(body: Result<Value>): (o: RequestResult)
    ensures o.Success? <==> body.Ok?
  {
    match body
    case Ok(v) => Success(v)
    case Err(e) => Failure(e)
  }

  /** What `run` settles with once the request is torn down: the result returned, or the error rethrown. */
  function RunOutcome(o: RequestResult): (r: Result<Value>)
    ensures r.Ok? <==> o.Success?
  {
    match o
    case Success(v) => Ok(v)
    case Failure(e) => Err(e)
  }

  /** `run` reports exactly what its body did: the value it returned or the very error it threw. */
  lemma RunReportsBody(body: Result<Value>)
    ensures RunOutcome(RequestResultOf(body)) == body
  {
  }

  /** A request's teardown sees exactly the outcome `run` reports. */
  lemma TeardownSeesReport(o: RequestResult)
    ensures RequestResultOf(RunOutcome(o)) == o
  {
  }

  class RootContext {
    const rootMap: BindingMap<()>
    /** The requests whose `run` has not finished yet. */
    var requests: set<BindingContext>
    var isDestroyed: bool
    var stage: RootStage

    ghost predicate Valid()
      reads this, rootMap, rootMap.bindings.Values
    {
      && rootMap.Valid()
      && (forall r :: r in requests ==> r.rootMap == rootMap)
      && (isDestroyed <==> !stage.RootLive?)
      && (stage.RootLive? || stage.AwaitingRequests? <==> rootMap.stage.MapLive?)
      && (stage.AwaitingRootMap? ==> rootMap.stage.Destroying?)
      && (stage.RootDone? ==> rootMap.stage.Destroyed?)
      && (stage.AwaitingRequests? ==> requests <= stage.waiting)
    }

    constructor()
      ensures Valid() && fresh(rootMap)
      ensures requests == {} && !isDestroyed && stage == RootLive
      ensures rootMap.bindings == map[]
    {
      rootMap := new BindingMap();
      requests := {};
      isDestroyed := false;
      stage := RootLive;
    }

    /** The `isDestroyed` getter: true from the first `destroy` call on. */
    function IsDestroyed(): (r: bool)
      requires Valid()
      reads this, rootMap, rootMap.bindings.Values
      ensures r <==> !stage.RootLive?
      ensures !r ==> rootMap.stage.MapLive?
    {
      isDestroyed
    }

    /**
     * `run(callback)`, up to the callback: throws "This context has been
     * destroyed." once the root is destroyed; otherwise a new request
     * context over the root table, registered as running. The callback is
     * the caller's: it resolves through the returned context.
     */
    method Run() returns (r: Result<BindingContext>)
      requires Valid()
      modifies this
      ensures Valid()
      ensures isDestroyed == old(isDestroyed) && stage == old(stage)
      ensures r.Err? <==> old(isDestroyed)
      ensures r.Err? ==> r.error == Raised(ContextDestroyedMessage) && requests == old(requests)
      ensures r.Ok? ==>
        && fresh(r.value) && fresh(r.value.requestMap)
        && r.value.Valid() && !r.value.isDestroyed
        && r.value.rootMap == rootMap && r.value.requestMap.bindings == map[]
        && requests == old(requests) + {r.value}
    {
      if isDestroyed {
        return Err(Raised(ContextDestroyedMessage));
      }
      var request := new BindingContext(rootMap);
      requests := requests + {request};
      r := Ok(request);
    }

    /** The callback has settled: `run` destroys the request with its outcome. */
    method FinishBody(request: BindingContext, body: Result<Value>)
      requires Valid() && request in requests && request.Valid()
      modifies request, request.requestMap, request.requestMap.bindings.Values
      ensures Valid() && request.Valid()
      ensures request.isDestroyed
      ensures !old(request.isDestroyed) ==> request.requestMap.stage == Destroying(RequestResultOf(body))
    {
      request.Destroy(RequestResultOf(body));
    }

    /**
     * The request's destroy has finished: `run` unregisters the request and
     * settles with what it destroyed the request with. `None` while the
     * destroy is still waiting.
     */
    method EndRun(request: BindingContext) returns (r: Option<Result<Value>>)
      requires Valid() && request in requests && request.Valid()
      modifies this
      ensures Valid()
      ensures isDestroyed == old(isDestroyed) && stage == old(stage)
      ensures r.Some? <==> request.stage.ContextDone?
      ensures r.Some? ==>
        && request.requestMap.stage.Destroyed?
        && r.value == RunOutcome(request.requestMap.stage.args)
        && requests == old(requests) - {request}
      ensures r.None? ==> requests == old(requests)
    {
      if !request.stage.ContextDone? {
        return None;
      }
      requests := requests - {request};
      r := Some(RunOutcome(request.requestMap.stage.args));
    }

    /**
     * `destroy()`, up to its wait: the first call marks the root destroyed and
     * takes the running requests as the ones to wait for; later calls change
     * nothing.
     */
    method Destroy()
      requires Valid()
      modifies this
      ensures Valid()
      ensures isDestroyed && requests == old(requests)
      ensures !old(isDestroyed) ==> stage == AwaitingRequests(old(requests))
      ensures old(isDestroyed) ==> stage == old(stage)
    {
      if !isDestroyed {
        isDestroyed := true;
        stage := AwaitingRequests(requests);
      }
    }

    /**
     * Resume the root's destroy by one await. Past the requests only once
     * every awaited request's `destroyed()` has settled; it then destroys the
     * root table with no arguments, and finishes once that table's destroy
     * has. Nothing is rethrown.
     */
    method StepDestroy() returns (progressed: bool)
      requires Valid()
      modifies this, rootMap, rootMap.bindings.Values
      ensures Valid()
      ensures isDestroyed == old(isDestroyed) && requests == old(requests)
      ensures rootMap.bindings == old(rootMap.bindings)
      ensures old(stage).RootLive? || old(stage).RootDone? ==> !progressed
      ensures old(stage).AwaitingRequests? ==>
        && (progressed <==> forall r :: r in old(stage).waiting ==> r.destroyed.state != Pending)
        && (progressed ==>
              && stage == AwaitingRootMap
              && rootMap.stage == Destroying(())
              && forall b :: b in rootMap.bindings.Values ==> b.stage == AwaitingDependents(()))
      ensures old(stage).AwaitingRootMap? ==>
        && (progressed <==> forall b :: b in rootMap.bindings.Values ==> b.stage.Finished?)
        && (progressed ==> stage == RootDone && rootMap.stage.Destroyed?)
      ensures !progressed ==> stage == old(stage)
    {
      progressed := false;
      match stage
      case AwaitingRequests(waiting) =>
        if forall r :: r in waiting ==> r.destroyed.state != Pending {
          rootMap.Destroy(());
          stage := AwaitingRootMap;
          progressed := true;
        }
      case AwaitingRootMap =>
        progressed := rootMap.Complete();
        if progressed {
          stage := RootDone;
        }
      case _ =>
    }
  }

  /** `currentOrThrow()`: the ambient request, or a thrown "Cannot resolve binding outside of context". */
  function CurrentOrThrow(current: Option<BindingContext>): (r: Result<BindingContext>)
    ensures r.Ok? <==> current.Some?
    ensures r.Ok? ==> r.value == current.value
    ensures r.Err? ==> r.error == Raised(NoContextMessage)
  {
    match current
    case None => Err(Raised(NoContextMessage))
    case Some(c) => Ok(c)
  }

  /** `RootContext.resolve(options)`: the ambient request's resolve; outside a request, an error. */
  method AmbientResolve(current: Option<BindingContext>, key: Key, scope: Scope, hasFinalizer: bool, use: Call,
                        ambient: Option<Stack>)
    returns (r: Result<Handle>)
    requires current.Some? ==> current.value.Valid() && current.value.rootMap.Valid()
    modifies if current.Some? then {current.value.rootMap} else {}
    modifies if current.Some? then current.value.rootMap.bindings.Values else {}
    modifies if current.Some? then {current.value.requestMap} else {}
    modifies if current.Some? then current.value.requestMap.bindings.Values else {}
    ensures current.None? ==> r == Err(Raised(NoContextMessage))
    ensures current.Some? ==> current.value.Valid() && current.value.rootMap.Valid()
    ensures current.Some? ==> ResolveEffect(current.value, key, scope, hasFinalizer, use, ambient, r)
  {
    match CurrentOrThrow(current)
    case Err(e) =>
      r := Err(e);
    case Ok(c) =>
      r := c.Resolve(key, scope, hasFinalizer, use, ambient);
  }

  /** `RootContext.isBound(key, scope)`: the ambient request's answer; outside a request, an error. */
  function AmbientIsBound(current: Option<BindingContext>, key: Key, scope: Scope): (r: Result<bool>)
    requires current.Some? ==> current.value.Valid() && current.value.rootMap.Valid()
    reads if current.Some? then {current.value} else {}
    reads if current.Some? then {current.value.rootMap} else {}
    reads if current.Some? then {current.value.requestMap} else {}
    reads if current.Some? then current.value.rootMap.bindings.Values else {}
    reads if current.Some? then current.value.requestMap.bindings.Values else {}
    ensures r.Ok? <==> current.Some?
    ensures r.Err? ==> r.error == Raised(NoContextMessage)
    ensures r.Ok? && scope == Root ==> (r.value <==> key in current.value.rootMap.order)
    ensures r.Ok? && scope == Request ==> (r.value <==> key in current.value.requestMap.order)
  {
    match current
    case None => Err(Raised(NoContextMessage))
    case Some(c) => Ok(c.IsBound(key, scope))
  }
}
