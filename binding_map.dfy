/**
 * `BindingMap`: a keyed get-or-create table of bindings. Resolving a key the
 * first time starts its factory; resolving it again reuses the binding.
 * Resolving with a dependent key records that binding as a dependent of the
 * one resolved. The table's destroy hands its arguments to every binding's
 * destroy and finishes once all of them have, whatever their outcome.
 */
module BindingMaps {
  import opened Common
  import opened Signals
  import opened Bindings

  /** Where the table's once-guarded `destroy` stands. */
  datatype MapStage<A> = MapLive | Destroying(args: A) | Destroyed(args: A)

  class BindingMap<A> {
    var bindings: map<Key, Binding<A>>
    /** The keys in insertion order, which is the order a JS `Map` iterates in. */
    var order: seq<Key>
    var isDestroyed: bool
    var stage: MapStage<A>

    /** The table's shape: one binding object per key, every recorded dependent one of them. */
    ghost predicate Structure()
      reads this, bindings.Values
    {
      && (forall b :: b in bindings.Values ==> b.Valid())
      && (forall k1, k2 :: k1 in bindings && k2 in bindings && k1 != k2 ==> bindings[k1] != bindings[k2])
      && (forall i, j :: 0 <= i < j < |order| ==> order[i] != order[j])
      && (forall k :: k in bindings <==> k in order)
      && (forall b, d :: b in bindings.Values && d in b.dependents ==> d in bindings.Values)
    }

    /** The table's destroy and its bindings' destroys move together. */
    ghost predicate Phases()
      reads this, bindings.Values
    {
      && (isDestroyed <==> !stage.MapLive?)
      && (stage.MapLive? ==> forall b :: b in bindings.Values ==> b.stage.Live?)
      && (!stage.MapLive? ==> forall b :: b in bindings.Values ==> b.destroyArgs == Some(stage.args))
      && (stage.Destroyed? ==> forall b :: b in bindings.Values ==> b.stage.Finished?)
    }

    /**
     * For every recorded edge, a binding gets past its wait only once the
     * dependent has finished destroying, finalizer included.
     */
    ghost predicate DependentsFinishFirst()
      reads this, bindings.Values
      requires Structure()
    {
      forall b, d :: b in bindings.Values && d in b.dependents && b.PastDependents() ==> d.stage.Finished?
    }

    ghost predicate Valid()
      reads this, bindings.Values
    {
      Structure() && Phases() && DependentsFinishFirst()
    }

    constructor()
      ensures Valid()
      ensures bindings == map[] && order == [] && !isDestroyed && stage == MapLive
    {
      bindings := map[];
      order := [];
      isDestroyed := false;
      stage := MapLive;
    }

    /** `isBound(k)`: whether `k` has been resolved in this table, destroyed or not. */
    function IsBound(k: Key): (r: bool)
      requires Valid()
      reads this, bindings.Values
      ensures r <==> k in order
    {
      k in bindings
    }

    /**
     * `getOrCreate`: the existing binding for the key, or a new one whose
     * value is the promise of the factory, started now (`call` is what the
     * factory does when invoked). Only `resolve` calls it, after checking
     * that the table is live.
     */
    method GetOrCreate(key: Key, hasFinalizer: bool, call: Call) returns (b: Binding<A>)
      requires Valid() && !isDestroyed
      modifies this
      ensures Valid()
      ensures isDestroyed == old(isDestroyed) && stage == old(stage)
      ensures key in bindings && b == bindings[key]
      ensures key in old(bindings) ==> bindings == old(bindings) && order == old(order)
      ensures key !in old(bindings) ==>
        && bindings == old(bindings)[key := b]
        && order == old(order) + [key]
        && fresh(b)
        && b.hasFinalizer == hasFinalizer
        && b.dependents == []
        && b.value == CallOutcome(call)
    {
      if key in bindings {
        return bindings[key];
      }
      b := new Binding(CallOutcome(call), hasFinalizer);
      ValuesAfterInsert(bindings, key, b);
      bindings := bindings[key := b];
      order := order + [key];
    }

    /**
     * `resolve(options, dependentKey)`: rejects with "This binding has been
     * destroyed." once the table is destroyed, adding nothing. Otherwise gets
     * or creates the key's binding; when `dependentKey` names a binding of this
     * table (looked up after the insertion) that binding is appended to the
     * resolved one's dependents. The promise handed back is the resolved
     * binding's value, identified here by the binding that holds it.
     */
    method Resolve(key: Key, hasFinalizer: bool, call: Call, dependentKey: Option<Key>)
      returns (r: Result<Binding<A>>)
      requires Valid()
      modifies this, bindings.Values
      ensures Valid()
      ensures isDestroyed == old(isDestroyed) && stage == old(stage)
      ensures r.Err? <==> old(isDestroyed)
      ensures r.Err? ==> r.error == Raised(BindingDestroyedMessage)
      ensures r.Err? ==> bindings == old(bindings) && order == old(order)
      ensures r.Ok? ==> key in bindings && r.value == bindings[key]
      ensures r.Ok? && key in old(bindings) ==>
        bindings == old(bindings) && order == old(order) && r.value.value == old(bindings[key].value)
      ensures r.Ok? && key !in old(bindings) ==>
        && bindings == old(bindings)[key := r.value]
        && order == old(order) + [key]
        && fresh(r.value)
        && r.value.value == CallOutcome(call)
        && r.value.hasFinalizer == hasFinalizer
      ensures forall b :: b in old(bindings.Values) ==>
        b.value == old(b.value) && b.stage == old(b.stage) && b.finalizerCalls == old(b.finalizerCalls)
      ensures forall k :: k in bindings ==>
        bindings[k].dependents ==
          (if r.Ok? && k == key && dependentKey.Some? && dependentKey.value in bindings
           then old(if k in bindings then bindings[k].dependents else []) + [bindings[dependentKey.value]]
           else old(if k in bindings then bindings[k].dependents else []))
    {
      if isDestroyed {
        return Err(Raised(BindingDestroyedMessage));
      }
      var b := GetOrCreate(key, hasFinalizer, call);
      LinkDependent(key, dependentKey);
      r := Ok(b);
    }

    /**
     * The second half of `resolve` on a live table: the binding named by
     * `dependentKey`, looked up in this table, is appended to the key's
     * dependents; a key that names no binding adds nothing.
     */
    method LinkDependent(key: Key, dependentKey: Option<Key>)
      requires Valid() && !isDestroyed && key in bindings
      modifies bindings[key]
      ensures Valid()
      ensures bindings[key].dependents ==
        if dependentKey.Some? && dependentKey.value in bindings
        then old(bindings[key].dependents) + [bindings[dependentKey.value]]
        else old(bindings[key].dependents)
      ensures bindings[key].value == old(bindings[key].value) && bindings[key].stage == old(bindings[key].stage)
      ensures bindings[key].finalizerCalls == old(bindings[key].finalizerCalls)
      ensures bindings[key].hasFinalizer == old(bindings[key].hasFinalizer)
    {
      if dependentKey.Some? && dependentKey.value in bindings {
        var added := bindings[key].AddDependent(bindings[dependentKey.value]);
      }
    }

    /** The environment settles the factory promise of a binding; a settled one stays as it is. */
    method SettleFactory(key: Key, outcome: Result<Value>)
      requires Valid() && key in bindings
      modifies bindings[key]
      ensures Valid()
      ensures outcome.Ok? ==> bindings[key].value == ResolveCell(old(bindings[key].value), outcome.value)
      ensures outcome.Err? ==> bindings[key].value == RejectCell(old(bindings[key].value), Some(outcome.error))
      ensures bindings[key].stage == old(bindings[key].stage) && bindings[key].dependents == old(bindings[key].dependents)
      ensures bindings[key].finalizerCalls == old(bindings[key].finalizerCalls)
      ensures bindings[key].destroyed == old(bindings[key].destroyed)
    {
      bindings[key].ValueSettles(outcome);
    }

    /**
     * `destroy(...args)`, up to its wait: the first call marks the table
     * destroyed and calls every binding's destroy with `args`, in insertion
     * order; later calls change nothing.
     */
    method Destroy(args: A)
      requires Valid()
      modifies this, bindings.Values
      ensures Valid()
      ensures bindings == old(bindings) && order == old(order) && isDestroyed
      ensures old(stage).MapLive? ==>
        && stage == Destroying(args)
        && forall b :: b in bindings.Values ==> b.stage == AwaitingDependents(args)
      ensures !old(stage).MapLive? ==> stage == old(stage)
      ensures forall b :: b in bindings.Values ==>
        && b.dependents == old(b.dependents)
        && b.finalizerCalls == old(b.finalizerCalls)
        && b.value == old(b.value)
        && (!old(stage).MapLive? ==> b.stage == old(b.stage))
    {
      if !stage.MapLive? {
        return;
      }
      isDestroyed := true;
      stage := Destroying(args);
      var values := InOrder(order);
      DestroyEach(values, args);
      assert Structure();
    }

    /** `[...bindings.values()]` for the given keys: their bindings, in the keys' order. */
    function InOrder(keys: seq<Key>): (vs: seq<Binding<A>>)
      reads this
      requires forall k :: k in keys ==> k in bindings
      ensures |vs| == |keys| && forall j :: 0 <= j < |keys| ==> vs[j] == bindings[keys[j]]
      ensures forall k :: k in keys ==> bindings[k] in vs
      ensures forall b :: b in vs ==> b in bindings.Values
    {
      if keys == [] then [] else InOrder(keys[..|keys| - 1]) + [bindings[keys[|keys| - 1]]]
    }

    /** Resume one binding's destroy by one await (see `Binding.Step`). */
    method StepBinding(key: Key, finalizerSuspends: bool) returns (progressed: bool)
      requires Valid() && key in bindings
      modifies bindings[key]
      ensures Valid()
      ensures old(bindings[key].stage).AwaitingDependents? ==>
        (progressed <==> old(forall d :: d in bindings[key].dependents ==> d.stage.Finished?))
      ensures old(bindings[key].stage).AwaitingValue? ==>
        (progressed <==> bindings[key].value.state != Pending)
      ensures progressed <==> bindings[key].stage != old(bindings[key].stage)
      ensures bindings[key].finalizerCalls != old(bindings[key].finalizerCalls) ==>
        forall d :: d in bindings[key].dependents ==> d.stage.Finished?
    {
      var b := bindings[key];
      assert b in bindings.Values;
      assert forall d :: d in b.dependents ==> d in bindings.Values && d.Valid();
      progressed := b.Step(finalizerSuspends);
      StepKeepsValid(b);
    }

    /**
     * One binding of a valid table moving its destroy on, with nothing else in
     * the table changed, keeps the table valid, provided the move leaves a live
     * or finished binding as it was, never goes back before the dependents'
     * wait, and passes that wait only once every dependent's `destroyed()` has
     * settled.
     */
    twostate lemma StepKeepsValid(b: Binding<A>)
      requires old(Valid()) && b in old(bindings.Values)
      requires unchanged(this)
      requires forall x :: x in bindings.Values && x != b ==> unchanged(x)
      requires b.Valid() && b.dependents == old(b.dependents) && b.destroyArgs == old(b.destroyArgs)
      requires old(b.stage.Live? || b.stage.Finished?) ==> b.stage == old(b.stage)
      requires old(b.PastDependents()) ==> b.PastDependents()
      requires b.PastDependents() && !old(b.PastDependents()) ==> old(b.DependentsDestroyed())
      ensures Valid()
    {
      assert Structure();
      assert Phases();
      forall x, d | x in bindings.Values && d in x.dependents && x.PastDependents()
        ensures d.stage.Finished?
      {
        assert d in old(bindings.Values);
        assert old(d.Valid());
        if x == b && !old(b.PastDependents()) {
          assert old(d.destroyed.state == Resolved);
        } else {
          assert old(x.PastDependents()) && d in old(x.dependents);
        }
        assert old(d.stage.Finished?);
      }
    }

    /** One binding's finalizer promise settles. */
    method FinalizerSettled(key: Key) returns (progressed: bool)
      requires Valid() && key in bindings
      modifies bindings[key]
      ensures Valid()
      ensures progressed <==> old(bindings[key].stage).AwaitingFinalizer?
      ensures progressed ==> bindings[key].stage.Finished?
    {
      var b := bindings[key];
      progressed := b.FinalizerSettled();
    }

    /**
     * The `Promise.allSettled` the table's destroy waits on completes once
     * every binding has finished; destroy then resolves, never rejecting.
     */
    method Complete() returns (progressed: bool)
      requires Valid()
      modifies this
      ensures Valid()
      ensures bindings == old(bindings) && order == old(order) && isDestroyed == old(isDestroyed)
      ensures progressed <==> old(stage).Destroying? && forall b :: b in bindings.Values ==> b.stage.Finished?
      ensures progressed ==> stage == Destroyed(old(stage).args)
      ensures !progressed ==> stage == old(stage)
    {
      progressed := stage.Destroying? && forall k :: k in bindings ==> bindings[k].stage.Finished?;
      if progressed {
        stage := Destroyed(stage.args);
      }
    }
  }

  /**
   * The `map` over the table's bindings in `destroy`: each live binding, in
   * turn, starts its destroy with `args`.
   */
  method DestroyEach<A>(bs: seq<Binding<A>>, args: A)
    requires forall j, l :: 0 <= j < l < |bs| ==> bs[j] != bs[l]
    requires forall b :: b in bs ==> b.Valid() && b.stage.Live?
    modifies set b | b in bs
    ensures forall b :: b in bs ==>
      && b.Valid()
      && b.stage == AwaitingDependents(args) && b.destroyArgs == Some(args)
      && b.dependents == old(b.dependents)
      && b.finalizerCalls == old(b.finalizerCalls)
      && b.value == old(b.value)
  {
    var i := 0;
    while i < |bs|
      invariant 0 <= i <= |bs|
      invariant forall j :: 0 <= j < |bs| ==>
        && bs[j].Valid()
        && bs[j].dependents == old(bs[j].dependents)
        && bs[j].finalizerCalls == old(bs[j].finalizerCalls)
        && bs[j].value == old(bs[j].value)
        && (j < i ==> bs[j].stage == AwaitingDependents(args) && bs[j].destroyArgs == Some(args))
        && (i <= j ==> bs[j].stage.Live?)
    {
      bs[i].Destroy(args);
      i := i + 1;
    }
  }

  /**
   * `resolve` of a new key `outer` whose factory resolves `inner`, in the
   * order the source runs them: `getOrCreate` invokes the factory before it
   * stores the new binding, so the nested resolve, which names `outer` as its
   * dependent, looks `outer` up before it is in the table and records no
   * edge. `inner`'s finalizer then need not wait for `outer`'s.
   */
  method NestedResolveAsWritten<A>(m: BindingMap<A>, outer: Key, outerCall: Call, outerDependent: Option<Key>,
                                   inner: Key, innerCall: Call, hasFinalizer: bool)
    returns (r: Result<Binding<A>>)
    requires m.Valid() && !m.isDestroyed && outer != inner && outer !in m.bindings
    modifies m, m.bindings.Values
    ensures m.Valid() && r.Ok? && outer in m.bindings && inner in m.bindings
    ensures m.bindings[outer] !in m.bindings[inner].dependents
    ensures inner !in old(m.bindings) ==> m.bindings[inner].dependents == []
  {
    // the factory's own resolve, run from inside `getOrCreate(outer)`
    var nested := m.GetOrCreate(inner, hasFinalizer, innerCall);
    m.LinkDependent(inner, Some(outer));
    ghost var deps := nested.dependents;
    // `getOrCreate(outer)` stores the binding only now, then `resolve` links it
    var b := m.GetOrCreate(outer, hasFinalizer, outerCall);
    assert b !in deps && b != nested;
    m.LinkDependent(outer, outerDependent);
    assert nested.dependents == deps;
    r := Ok(b);
  }

  /**
   * The same two resolves with `outer` stored before its factory runs: the
   * nested resolve finds it and records it as a dependent of `inner`, so by
   * `DependentsFinishFirst` the table's destroy runs `inner`'s finalizer only
   * after `outer` has finished destroying.
   */
  method NestedResolveRegistered<A>(m: BindingMap<A>, outer: Key, outerCall: Call, outerDependent: Option<Key>,
                                    inner: Key, innerCall: Call, hasFinalizer: bool)
    returns (r: Result<Binding<A>>)
    requires m.Valid() && !m.isDestroyed && outer != inner && outer !in m.bindings
    modifies m, m.bindings.Values
    ensures m.Valid() && r.Ok? && outer in m.bindings && inner in m.bindings
    ensures m.bindings[inner].dependents ==
      old(if inner in m.bindings then m.bindings[inner].dependents else []) + [m.bindings[outer]]
  {
    var b := m.GetOrCreate(outer, hasFinalizer, outerCall);
    // the factory's own resolve, which now finds `outer` in the table
    var nested := m.GetOrCreate(inner, hasFinalizer, innerCall);
    m.LinkDependent(inner, Some(outer));
    m.LinkDependent(outer, outerDependent);
    r := Ok(b);
  }

  /** The next `Step` or `FinalizerSettled` on `b` would move its destroy on. */
  ghost predicate CanMove<A>(b: Binding<A>)
    reads b, set d | d in b.dependents
  {
    || (b.stage.AwaitingDependents? && forall d :: d in b.dependents ==> d.stage.Finished?)
    || (b.stage.AwaitingValue? && b.value.state != Pending)
    || b.stage.AwaitingFinalizer?
  }

  /** Every binding outranks each of its recorded dependents: the edges have no cycle. */
  ghost predicate RankedBy<A>(m: BindingMap<A>, rank: map<Binding<A>, nat>)
    reads m, m.bindings.Values
  {
    forall b, d :: b in m.bindings.Values && d in b.dependents ==> b in rank && d in rank && rank[d] < rank[b]
  }

  /**
   * A table's destroy cannot get stuck: while it is destroying with acyclic
   * dependent edges and every value promise settled, any unfinished binding
   * leads, along its unfinished dependents, to one that can move.
   */
  lemma {:induction false} SomeBindingCanMove<A>(m: BindingMap<A>, rank: map<Binding<A>, nat>, b0: Binding<A>)
    requires m.Valid() && m.stage.Destroying?
    requires RankedBy(m, rank)
    requires forall b :: b in m.bindings.Values ==> b.value.state != Pending
    requires b0 in m.bindings.Values && b0 in rank && !b0.stage.Finished?
    ensures exists b :: b in m.bindings.Values && !b.stage.Finished? && CanMove(b)
    decreases rank[b0]
  {
    assert b0.Valid() && b0.destroyArgs.Some?;
    if b0.stage.AwaitingDependents? && !(forall d :: d in b0.dependents ==> d.stage.Finished?) {
      var d :| d in b0.dependents && !d.stage.Finished?;
      SomeBindingCanMove(m, rank, d);
    } else {
      assert CanMove(b0);
    }
  }

  /** Inserting a new key adds exactly its value to a map's values. */
  lemma ValuesAfterInsert<K, V>(m: map<K, V>, k: K, v: V)
    requires k !in m
    ensures m[k := v].Values == m.Values + {v}
  {
    var m' := m[k := v];
    forall x | x in m'.Values
      ensures x in m.Values + {v}
    {
      var k' :| k' in m' && m'[k'] == x;
      if k' != k {
        assert k' in m && m[k'] == x;
      }
    }
    forall x | x in m.Values + {v}
      ensures x in m'.Values
    {
      if x == v {
        assert m'[k] == x;
      } else {
        var k' :| k' in m && m[k'] == x;
        assert m'[k'] == x;
      }
    }
  }

  /** The state of a factory's promise right after the factory was invoked. */
  function CallOutcome(call: Call): (c: Cell<Value>)
    ensures Reachable(c)
    ensures c.state == Pending <==> call.Suspends?
  {
    match call
    case Returns(v) => Cell(Resolved, Some(v), None)
    case Throws(e) => Cell(Rejected, None, Some(e))
    case Suspends => Initial()
  }
}
