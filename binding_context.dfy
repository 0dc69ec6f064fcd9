/**
 * `BindingContext`: one request's view of the container. It shares the
 * application's root table and owns a request table of its own; a resolve
 * pushes `(key, scope)` on the ambient resolution stack, checks it, and
 * dispatches to the table of the requested scope, recording the frame below
 * as a dependent. Destroying the context destroys its request table with the
 * request's outcome and then resolves `destroyed()`.
 */
module BindingContexts {
  import opened Common
  import opened Signals
  import opened Bindings
  import opened BindingMaps
  import opened Resolution

  /** The binding a resolve was answered from: its promise is that binding's value. */
  datatype Handle = RootHandle(root: Binding<()>) | RequestHandle(request: Binding<RequestResult>)

  /** Where the context's once-guarded `destroy` stands. */
  datatype ContextStage = ContextLive | AwaitingRequestMap | ContextDone

  class BindingContext {
    const rootMap: BindingMap<()>
    const requestMap: BindingMap<RequestResult>
    /** `destroyed()`: resolved by the `finally` of `destroy`, never rejected. */
    var destroyed: Cell<()>
    var isDestroyed: bool
    var stage: ContextStage

    ghost predicate Valid()
      reads this, requestMap, requestMap.bindings.Values
    {
      && requestMap.Valid()
      && Reachable(destroyed)
      && destroyed.state != Rejected
      && (isDestroyed <==> !stage.ContextLive?)
      && (isDestroyed <==> requestMap.isDestroyed)
      && (stage.ContextDone? <==> destroyed.state == Resolved)
      && (stage.ContextDone? ==> requestMap.stage.Destroyed?)
    }

    constructor(rootMap: BindingMap<()>)
      ensures Valid()
      ensures this.rootMap == rootMap && fresh(requestMap)
      ensures requestMap.bindings == map[] && requestMap.order == []
      ensures !isDestroyed && stage == ContextLive && destroyed == Initial()
    {
      this.rootMap := rootMap;
      requestMap := new BindingMap();
      destroyed := Initial();
      isDestroyed := false;
      stage := ContextLive;
    }

    /**
     * `resolve(options)`: throws "This binding has been destroyed." once the
     * context is destroyed. Otherwise takes the ambient stack (empty when
     * there is none) and its top key as the dependent key, pushes the frame
     * (failing on a cycle, then on a request frame above a root frame), and
     * resolves in the table of the frame's scope. `use` is what the factory
     * does when it is invoked; resolves it makes itself are further calls
     * whose ambient stack is the pushed one.
     */
    method Resolve(key: Key, scope: Scope, hasFinalizer: bool, use: Call, ambient: Option<Stack>)
      returns (r: Result<Handle>)
      requires Valid() && rootMap.Valid()
      modifies rootMap, rootMap.bindings.Values, requestMap, requestMap.bindings.Values
      ensures Valid() && rootMap.Valid()
      ensures ResolveEffect(this, key, scope, hasFinalizer, use, ambient, r)
    {
      if isDestroyed {
        return Err(Raised(BindingDestroyedMessage));
      }
      var pushed := Push(ambient.GetOr(Empty()), Frame(key, scope));
      if pushed.Err? {
        return Err(pushed.error);
      }
      if scope == Root {
        r := ResolveRoot(key, hasFinalizer, use, ambient);
      } else {
        r := ResolveRequest(key, hasFinalizer, use, ambient);
      }
    }

    /** The `'root'` arm of `resolve`'s dispatch, once the context is live and the push succeeded. */
    method ResolveRoot(key: Key, hasFinalizer: bool, use: Call, ambient: Option<Stack>)
      returns (r: Result<Handle>)
      requires Valid() && rootMap.Valid() && !isDestroyed
      requires Push(ambient.GetOr(Empty()), Frame(key, Root)).Ok?
      modifies rootMap, rootMap.bindings.Values
      ensures Valid() && rootMap.Valid()
      ensures ResolveEffect(this, key, Root, hasFinalizer, use, ambient, r)
    {
      var x := ResolveIn(rootMap, key, hasFinalizer, use, Peek(ambient.GetOr(Empty())));
      assert unchanged(requestMap) && unchanged(requestMap.bindings.Values);
      r := if x.Ok? then Ok(RootHandle(x.value)) else Err(x.error);
    }

    /** The `'request'` arm of `resolve`'s dispatch, once the context is live and the push succeeded. */
    method ResolveRequest(key: Key, hasFinalizer: bool, use: Call, ambient: Option<Stack>)
      returns (r: Result<Handle>)
      requires Valid() && rootMap.Valid() && !isDestroyed
      requires Push(ambient.GetOr(Empty()), Frame(key, Request)).Ok?
      modifies requestMap, requestMap.bindings.Values
      ensures Valid() && rootMap.Valid()
      ensures ResolveEffect(this, key, Request, hasFinalizer, use, ambient, r)
    {
      var x := ResolveIn(requestMap, key, hasFinalizer, use, Peek(ambient.GetOr(Empty())));
      assert unchanged(rootMap) && unchanged(rootMap.bindings.Values);
      r := Ok(RequestHandle(x.value));
    }

    /** `isBound(key, scope)`: whether the table of that scope holds the key; destroyed or not. */
    function IsBound(key: Key, scope: Scope): (r: bool)
      requires Valid() && rootMap.Valid()
      reads this, rootMap, rootMap.bindings.Values, requestMap, requestMap.bindings.Values
      ensures scope == Root ==> (r <==> key in rootMap.order)
      ensures scope == Request ==> (r <==> key in requestMap.order)
    {
      match scope
      case Root => rootMap.IsBound(key)
      case Request => requestMap.IsBound(key)
    }

    /**
     * `destroy(outcome)`, up to its wait: the first call marks the context
     * destroyed and destroys the request table with the request's outcome;
     * later calls change nothing. The root table is not touched.
     */
    method Destroy(outcome: RequestResult)
      requires Valid()
      modifies this, requestMap, requestMap.bindings.Values
      ensures Valid()
      ensures isDestroyed && destroyed == old(destroyed)
      ensures requestMap.bindings == old(requestMap.bindings)
      ensures !old(isDestroyed) ==>
        && stage == AwaitingRequestMap
        && requestMap.stage == Destroying(outcome)
        && forall b :: b in requestMap.bindings.Values ==> b.stage == AwaitingDependents(outcome)
      ensures old(isDestroyed) ==> stage == old(stage) && requestMap.stage == old(requestMap.stage)
      ensures forall b :: b in requestMap.bindings.Values ==>
        && b.dependents == old(b.dependents)
        && b.finalizerCalls == old(b.finalizerCalls)
        && b.value == old(b.value)
        && (old(isDestroyed) ==> b.stage == old(b.stage))
    {
      if isDestroyed {
        return;
      }
      isDestroyed := true;
      requestMap.Destroy(outcome);
      stage := AwaitingRequestMap;
    }

    /**
     * Resume the context's destroy: once every request binding has finished,
     * the request table's destroy completes and `destroyed()` resolves.
     */
    method Step() returns (progressed: bool)
      requires Valid()
      modifies this, requestMap
      ensures Valid()
      ensures isDestroyed == old(isDestroyed) && requestMap.bindings == old(requestMap.bindings)
      ensures progressed <==>
        old(stage).AwaitingRequestMap? && forall b :: b in requestMap.bindings.Values ==> b.stage.Finished?
      ensures progressed ==>
        && stage == ContextDone
        && destroyed == ResolveCell(old(destroyed), ())
        && requestMap.stage.Destroyed?
      ensures !progressed ==> stage == old(stage) && destroyed == old(destroyed)
    {
      progressed := false;
      if stage.AwaitingRequestMap? {
        var completed := requestMap.Complete();
        if requestMap.stage.Destroyed? {
          stage := ContextDone;
          destroyed := ResolveCell(destroyed, ());
          progressed := true;
        }
      }
    }
  }

  /**
   * A table that keeps its destroy state and every key it had, each under
   * the same binding with the same value, stage and finalizer calls; every
   * binding except the one under `resolved` also keeps its dependents.
   */
  twostate predicate Kept<A>(m: BindingMap<A>, resolved: Option<Key>)
    reads m, m.bindings.Values
  {
    && m.isDestroyed == old(m.isDestroyed) && m.stage == old(m.stage)
    && (forall k :: k in old(m.bindings) ==> k in m.bindings)
    && (forall k :: k in old(m.bindings) && k in m.bindings ==>
          && m.bindings[k] == old(m.bindings[k])
          && m.bindings[k].value == old(m.bindings[k].value)
          && m.bindings[k].stage == old(m.bindings[k].stage)
          && m.bindings[k].finalizerCalls == old(m.bindings[k].finalizerCalls)
          && (resolved != Some(k) ==> m.bindings[k].dependents == old(m.bindings[k].dependents)))
  }

  /** The resolve created the binding it hands back. */
  twostate predicate Created(new h: Handle) {
    if h.RootHandle? then fresh(h.root) else fresh(h.request)
  }

  /** The value promise a resolve hands back. */
  function ValueOf(h: Handle): (c: Cell<Value>)
    reads if h.RootHandle? then {h.root} else {}
    reads if h.RequestHandle? then {h.request} else {}
    ensures h.RootHandle? ==> c == h.root.value
    ensures h.RequestHandle? ==> c == h.request.value
  {
    match h
    case RootHandle(b) => b.value
    case RequestHandle(b) => b.value
  }

  /**
   * What resolving `key` in table `m`, with `d` as the dependent key, did:
   * it failed with "This binding has been destroyed." exactly when the table
   * was destroyed, changing nothing; otherwise it answered with the key's
   * binding, a new one holding the factory's outcome and the finalizer
   * flag, and appended the binding under `d`, if the table has it, to the
   * answer's dependents, which are otherwise left as they were (none, for a
   * new binding). No other binding of the table changed.
   */
  twostate predicate TableResolved<A>(m: BindingMap<A>, key: Key, hasFinalizer: bool, use: Call, d: Option<Key>,
                                      new x: Result<Binding<A>>)
    reads m, m.bindings.Values
  {
    && (x.Err? <==> old(m.isDestroyed))
    && (x.Err? ==>
          && x.error == Raised(BindingDestroyedMessage)
          && m.bindings == old(m.bindings) && m.order == old(m.order))
    && Kept(m, if x.Ok? then Some(key) else None)
    && (x.Ok? ==>
          && key in m.bindings && x.value == m.bindings[key]
          && (key in old(m.bindings) ==> m.bindings == old(m.bindings) && m.order == old(m.order))
          && (key !in old(m.bindings) ==>
                && m.bindings == old(m.bindings)[key := x.value]
                && m.order == old(m.order) + [key]
                && fresh(x.value)
                && x.value.value == CallOutcome(use)
                && x.value.hasFinalizer == hasFinalizer)
          && m.bindings[key].dependents ==
               old(if key in m.bindings then m.bindings[key].dependents else []) +
               (if d.Some? && d.value in m.bindings then [m.bindings[d.value]] else []))
  }

  /** `resolve` on one table, the part of a context's resolve after the push. */
  method ResolveIn<A>(m: BindingMap<A>, key: Key, hasFinalizer: bool, use: Call, d: Option<Key>)
    returns (x: Result<Binding<A>>)
    requires m.Valid()
    modifies m, m.bindings.Values
    ensures m.Valid() && m.isDestroyed == old(m.isDestroyed) && m.stage == old(m.stage)
    ensures TableResolved(m, key, hasFinalizer, use, d, x)
  {
    x := m.Resolve(key, hasFinalizer, use, d);
  }

  /**
   * Everything `resolve(options)` on `c` promises. A destroyed context
   * throws "This binding has been destroyed."; a failed push throws its own
   * error; in both cases, and whenever it fails, no table changes. Otherwise
   * the table of the frame's scope answers (see `TableResolved`), with the
   * ambient top key as the dependent key: the root table fails only once
   * destroyed, the request table of a live context never. The other table
   * does not change at all.
   */
  twostate predicate ResolveEffect(c: BindingContext, key: Key, scope: Scope, hasFinalizer: bool, use: Call,
                                   ambient: Option<Stack>, new r: Result<Handle>)
    reads c, c.rootMap, c.rootMap.bindings.Values, c.requestMap, c.requestMap.bindings.Values
  {
    var s := ambient.GetOr(Empty());
    var d := Peek(s);
    var pushed := Push(s, Frame(key, scope));
    && c.isDestroyed == old(c.isDestroyed) && c.stage == old(c.stage) && c.destroyed == old(c.destroyed)
    && (old(c.isDestroyed) ==> r == Err(Raised(BindingDestroyedMessage)))
    && (!old(c.isDestroyed) && pushed.Err? ==> r == Err(pushed.error))
    && (r.Err? ==>
          && c.rootMap.bindings == old(c.rootMap.bindings) && c.rootMap.order == old(c.rootMap.order)
          && c.requestMap.bindings == old(c.requestMap.bindings) && c.requestMap.order == old(c.requestMap.order)
          && Kept(c.rootMap, None) && Kept(c.requestMap, None))
    && (scope == Root ==> unchanged(c.requestMap) && unchanged(c.requestMap.bindings.Values))
    && (scope == Request ==> unchanged(c.rootMap) && unchanged(c.rootMap.bindings.Values))
    && (!old(c.isDestroyed) && pushed.Ok? && scope == Root ==>
          && (r.Ok? ==> r.value.RootHandle?)
          && TableResolved(c.rootMap, key, hasFinalizer, use, d, if r.Ok? then Ok(r.value.root) else Err(r.error)))
    && (!old(c.isDestroyed) && pushed.Ok? && scope == Request ==>
          && r.Ok? && r.value.RequestHandle?
          && TableResolved(c.requestMap, key, hasFinalizer, use, d, Ok(r.value.request)))
  }
}
