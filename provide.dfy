/**
 * `provide(options)`: a reference to a named binding. Calling it resolves the
 * binding in the ambient request; `bindTo(value)` resolves it with a factory
 * that returns the value; `isBound()` asks the ambient request whether the
 * binding exists in its scope's table.
 */
module Provide {
  import opened Common
  import opened BindingMaps
  import opened Resolution
  import opened BindingContexts
  import opened RootContexts

  /** The options `provide` is given; `use` and `scope` may be left out. */
  datatype ProvideOptions = ProvideOptions(name: string, use: Option<Call>, scope: Option<Scope>, hasFinalizer: bool)

  /** The options `provide` resolves with. */
  datatype ContextOptions = ContextOptions(key: Key, use: Call, scope: Scope, hasFinalizer: bool)

  /** `neverFactory(name)`: a factory that throws "Ref <name> has no factory". */
  function NeverFactory(name: string): (c: Call)
    ensures c == Throws(Raised("Ref " + name + " has no factory"))
  {
    Throws(Raised("Ref " + name + " has no factory"))
  }

  /**
   * The options built once per `provide` call: the key registered under the
   * name, the given factory or the throwing one, the given scope or root.
   */
  function ContextOptionsOf(o: ProvideOptions): (c: ContextOptions)
    ensures c.key == Interned(o.name)
    ensures o.use.Some? ==> c.use == o.use.value
    ensures o.use.None? ==> c.use == NeverFactory(o.name)
    ensures c.scope == o.scope.GetOr(Root)
    ensures c.hasFinalizer == o.hasFinalizer
  {
    ContextOptions(Interned(o.name), o.use.GetOr(NeverFactory(o.name)), o.scope.GetOr(Root), o.hasFinalizer)
  }

  /** Two references provided under the same name share one binding key, whatever else differs. */
  lemma SameNameSameKey(a: ProvideOptions, b: ProvideOptions)
    ensures ContextOptionsOf(a).key == ContextOptionsOf(b).key <==> a.name == b.name
  {
  }

  /** A reference without a factory whose binding is created gets a rejected value naming it. */
  lemma MissingFactoryRejects(o: ProvideOptions)
    requires o.use.None?
    ensures CallOutcome(ContextOptionsOf(o).use).state == Signals.Rejected
    ensures CallOutcome(ContextOptionsOf(o).use).error == Some(Raised("Ref " + o.name + " has no factory"))
  {
  }

  /**
   * `ref()`: resolve the reference's binding in the ambient request. A ref
   * declared without a factory whose binding this call creates gets a value
   * rejected with "Ref <name> has no factory"; an existing binding is handed
   * back with its own value.
   */
  method Invoke(o: ProvideOptions, current: Option<BindingContext>, ambient: Option<Stack>)
    returns (r: Result<Handle>)
    requires current.Some? ==> current.value.Valid() && current.value.rootMap.Valid()
    modifies if current.Some? then {current.value.rootMap} else {}
    modifies if current.Some? then current.value.rootMap.bindings.Values else {}
    modifies if current.Some? then {current.value.requestMap} else {}
    modifies if current.Some? then current.value.requestMap.bindings.Values else {}
    ensures current.None? ==> r == Err(Raised(NoContextMessage))
    ensures current.Some? ==> current.value.Valid() && current.value.rootMap.Valid()
    ensures var c := ContextOptionsOf(o);
      current.Some? ==> ResolveEffect(current.value, c.key, c.scope, c.hasFinalizer, c.use, ambient, r)
    ensures r.Ok? && Created(r.value) && o.use.None? ==>
      ValueOf(r.value) == Signals.Cell(Signals.Rejected, None, Some(Raised("Ref " + o.name + " has no factory")))
    ensures r.Ok? && !Created(r.value) ==> ValueOf(r.value) == old(ValueOf(r.value))
  {
    var c := ContextOptionsOf(o);
    r := AmbientResolve(current, c.key, c.scope, c.hasFinalizer, c.use, ambient);
  }

  /**
   * `ref.bindTo(value)`: resolve with a factory returning `value`. A binding
   * that already exists keeps its own value: the factory is not invoked.
   */
  method BindTo(o: ProvideOptions, v: Value, current: Option<BindingContext>, ambient: Option<Stack>)
    returns (r: Result<Handle>)
    requires current.Some? ==> current.value.Valid() && current.value.rootMap.Valid()
    modifies if current.Some? then {current.value.rootMap} else {}
    modifies if current.Some? then current.value.rootMap.bindings.Values else {}
    modifies if current.Some? then {current.value.requestMap} else {}
    modifies if current.Some? then current.value.requestMap.bindings.Values else {}
    ensures current.None? ==> r == Err(Raised(NoContextMessage))
    ensures current.Some? ==> current.value.Valid() && current.value.rootMap.Valid()
    ensures var c := ContextOptionsOf(o);
      current.Some? ==> ResolveEffect(current.value, c.key, c.scope, c.hasFinalizer, Returns(v), ambient, r)
    ensures r.Ok? && Created(r.value) ==> ValueOf(r.value) == Signals.Cell(Signals.Resolved, Some(v), None)
    ensures r.Ok? && !Created(r.value) ==> ValueOf(r.value) == old(ValueOf(r.value))
  {
    var c := ContextOptionsOf(o);
    r := AmbientResolve(current, c.key, c.scope, c.hasFinalizer, Returns(v), ambient);
  }

  /** `ref.isBound()`: whether the ambient request's table of the reference's scope holds its key. */
  function IsBoundRef(o: ProvideOptions, current: Option<BindingContext>): (r: Result<bool>)
    requires current.Some? ==> current.value.Valid() && current.value.rootMap.Valid()
    reads if current.Some? then {current.value} else {}
    reads if current.Some? then {current.value.rootMap} else {}
    reads if current.Some? then {current.value.requestMap} else {}
    reads if current.Some? then current.value.rootMap.bindings.Values else {}
    reads if current.Some? then current.value.requestMap.bindings.Values else {}
    ensures r.Ok? <==> current.Some?
    ensures r.Err? ==> r.error == Raised(NoContextMessage)
    ensures r.Ok? ==> (r.value <==>
      if o.scope.GetOr(Root) == Root then Interned(o.name) in current.value.rootMap.order
      else Interned(o.name) in current.value.requestMap.order)
  {
    var c := ContextOptionsOf(o);
    AmbientIsBound(current, c.key, c.scope)
  }
}
