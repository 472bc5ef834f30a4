/**
 * The `ObservableValue` class of js/observable_value.js: a value guarded by an
 * ordered list of validators and watched by an ordered list of bindings.
 * Functions are identified by handles; what a validator answers is given by the
 * `accepts` parameter, and what a bound function does is recorded as one entry
 * of the call log.
 */
module Observable {

  /** A JavaScript function, known by its identity. */
  type Handle = nat

  /** The `type` field of a binding. */
  datatype BindingType = FunctionBinding | ElementBinding | JQueryValueBinding | JQueryHtmlBinding

  /** An entry of `_bindings`. */
  datatype Binding = Binding(kind: BindingType, target: Handle)

  /** One call `func(newValue, oldValue)` of a bound function. */
  datatype ObserverCall<V> = ObserverCall(func: Handle, newValue: V, oldValue: V)

  /** The bindings that `_unbind(kind, target)` keeps, in their order. */
  function Unbound(bindings: seq<Binding>, kind: BindingType, target: Handle): (r: seq<Binding>)
    ensures forall b :: b in r <==> b in bindings && (b.kind != kind || b.target != target)
    ensures |r| <= |bindings|
  {
    if |bindings| == 0 then []
    else
      var rest := Unbound(bindings[..|bindings| - 1], kind, target);
      var b := bindings[|bindings| - 1];
      if b.kind != kind || b.target != target then rest + [b] else rest
  }

  /** The validators that `removeValidator(func)` keeps, in their order. */
  function Without(validators: seq<Handle>, func: Handle): (r: seq<Handle>)
    ensures forall v :: v in r <==> v in validators && v != func
    ensures |r| <= |validators|
  {
    if |validators| == 0 then []
    else
      var rest := Without(validators[..|validators| - 1], func);
      var v := validators[|validators| - 1];
      if v != func then rest + [v] else rest
  }

  /**
   * `_unbind` works element by element and keeps the order: unbinding from a
   * concatenation unbinds from each part.
   */
  lemma {:induction false} UnboundAppend(a: seq<Binding>, b: seq<Binding>, kind: BindingType, target: Handle)
    ensures Unbound(a + b, kind, target) == Unbound(a, kind, target) + Unbound(b, kind, target)
    decreases |b|
  {
    if |b| == 0 {
      assert a + b == a;
    } else {
      var b' := b[..|b| - 1];
      assert (a + b)[..|a + b| - 1] == a + b';
      UnboundAppend(a, b', kind, target);
    }
  }

  /** `removeValidator` works element by element and keeps the order. */
  lemma {:induction false} WithoutAppend(a: seq<Handle>, b: seq<Handle>, func: Handle)
    ensures Without(a + b, func) == Without(a, func) + Without(b, func)
    decreases |b|
  {
    if |b| == 0 {
      assert a + b == a;
    } else {
      var b' := b[..|b| - 1];
      assert (a + b)[..|a + b| - 1] == a + b';
      WithoutAppend(a, b', func);
    }
  }

  /** Whether every validator accepts the change, the answer of `_callValidators`. */
  predicate AllAccept<V>(validators: seq<Handle>, accepts: (Handle, V, V) -> bool, newValue: V, oldValue: V)
  {
    forall i :: 0 <= i < |validators| ==> accepts(validators[i], newValue, oldValue)
  }

  /** The calls that `_callObservers(newValue, oldValue)` makes, in binding order. */
  function Notifications<V>(bindings: seq<Binding>, newValue: V, oldValue: V): seq<ObserverCall<V>>
    requires forall i :: 0 <= i < |bindings| ==> bindings[i].kind == FunctionBinding
  {
    seq(|bindings|, i requires 0 <= i < |bindings| => ObserverCall(bindings[i].target, newValue, oldValue))
  }

  /**
   * The observers are notified binding by binding: the calls for `a + b` are
   * those for `a` followed by those for `b`.
   */
  lemma NotificationsAppend<V>(a: seq<Binding>, b: seq<Binding>, newValue: V, oldValue: V)
    requires forall i :: 0 <= i < |a| ==> a[i].kind == FunctionBinding
    requires forall i :: 0 <= i < |b| ==> b[i].kind == FunctionBinding
    ensures Notifications(a + b, newValue, oldValue) == Notifications(a, newValue, oldValue) + Notifications(b, newValue, oldValue)
  {
    var ab := a + b;
    forall i | 0 <= i < |ab| ensures ab[i].kind == FunctionBinding {
      if i >= |a| {
        assert ab[i] == b[i - |a|];
      }
    }
  }

  /**
   * Unbinding a function removes exactly its calls: what the remaining bindings
   * are notified of is the calls to the other functions, in their order.
   */
  lemma {:induction false} NotificationsUnbound<V>(bindings: seq<Binding>, func: Handle, newValue: V, oldValue: V)
    requires forall i :: 0 <= i < |bindings| ==> bindings[i].kind == FunctionBinding
    ensures var kept := Unbound(bindings, FunctionBinding, func);
      && (forall i :: 0 <= i < |kept| ==> kept[i].kind == FunctionBinding)
      && (forall call :: call in Notifications(kept, newValue, oldValue) <==>
            call in Notifications(bindings, newValue, oldValue) && call.func != func)
    decreases |bindings|
  {
    var kept := Unbound(bindings, FunctionBinding, func);
    forall i | 0 <= i < |kept| ensures kept[i].kind == FunctionBinding {
      assert kept[i] in bindings;
    }
    forall call
      ensures call in Notifications(kept, newValue, oldValue) <==>
        call in Notifications(bindings, newValue, oldValue) && call.func != func
    {
      if call in Notifications(kept, newValue, oldValue) {
        var i :| 0 <= i < |kept| && Notifications(kept, newValue, oldValue)[i] == call;
        var j :| 0 <= j < |bindings| && bindings[j] == kept[i];
        assert Notifications(bindings, newValue, oldValue)[j] == call;
      }
      if call in Notifications(bindings, newValue, oldValue) && call.func != func {
        var j :| 0 <= j < |bindings| && Notifications(bindings, newValue, oldValue)[j] == call;
        assert bindings[j] in kept;
        var i :| 0 <= i < |kept| && kept[i] == bindings[j];
        assert Notifications(kept, newValue, oldValue)[i] == call;
      }
    }
  }

  class ObservableValue<V> {
    /** `_value`, which the `value` getter returns. */
    var value: V
    var bindings: seq<Binding>
    var validators: seq<Handle>
    /** Every call of a bound function made so far, in order. */
    var calls: seq<ObserverCall<V>>

    /** Only function bindings are ever added. */
    predicate Valid()
      reads this
    {
      forall i :: 0 <= i < |bindings| ==> bindings[i].kind == FunctionBinding
    }

    /** `new ObservableValue(value)` */
    constructor(initial: V)
      ensures Valid()
      ensures value == initial && bindings == [] && validators == [] && calls == []
    {
      value := initial;
      bindings := [];
      validators := [];
      calls := [];
    }

    /**
     * `_callValidators`: consults the validators in insertion order and stops at
     * the first that rejects; `consulted` is how many were called.
     */
    method CallValidators(accepts: (Handle, V, V) -> bool, newValue: V, oldValue: V) returns (ok: bool, consulted: nat)
      ensures ok <==> AllAccept(validators, accepts, newValue, oldValue)
      ensures consulted <= |validators|
      ensures forall i :: 0 <= i < consulted - 1 ==> accepts(validators[i], newValue, oldValue)
      ensures ok ==> consulted == |validators|
      ensures !ok ==> consulted > 0 && !accepts(validators[consulted - 1], newValue, oldValue)
    {
      for i := 0 to |validators|
        invariant forall j :: 0 <= j < i ==> accepts(validators[j], newValue, oldValue)
      {
        var validator := validators[i];
        if !accepts(validator, newValue, oldValue) {
          return false, i + 1;
        }
      }
      return true, |validators|;
    }

    /** `_callObservers`: calls every bound function, in binding order. */
    method CallObservers(newValue: V, oldValue: V)
      requires Valid()
      modifies this`calls
      ensures calls == old(calls) + Notifications(bindings, newValue, oldValue)
    {
      for i := 0 to |bindings|
        invariant calls == old(calls) + Notifications(bindings[..i], newValue, oldValue)
      {
        calls := calls + [ObserverCall(bindings[i].target, newValue, oldValue)];
        assert bindings[..i + 1] == bindings[..i] + [bindings[i]];
        NotificationsAppend(bindings[..i], [bindings[i]], newValue, oldValue);
      }
      assert bindings[..|bindings|] == bindings;
    }

    /**
     * The `value` setter: when every validator accepts, stores the new value and
     * calls the bound functions with (new, old); otherwise changes nothing.
     */
    method SetValue(newValue: V, accepts: (Handle, V, V) -> bool)
      requires Valid()
      modifies this
      ensures Valid()
      ensures bindings == old(bindings) && validators == old(validators)
      ensures AllAccept(old(validators), accepts, newValue, old(value)) ==>
        value == newValue && calls == old(calls) + Notifications(bindings, newValue, old(value))
      ensures !AllAccept(old(validators), accepts, newValue, old(value)) ==>
        value == old(value) && calls == old(calls)
    {
      var oldValue := value;
      var ok, _ := CallValidators(accepts, newValue, oldValue);
      if !ok {
        return;
      }
      value := newValue;
      CallObservers(newValue, oldValue);
    }

    /** `refresh`: calls the bound functions with the current value as both new and old. */
    method Refresh()
      requires Valid()
      modifies this
      ensures Valid()
      ensures value == old(value) && bindings == old(bindings) && validators == old(validators)
      ensures calls == old(calls) + Notifications(bindings, value, value)
    {
      CallObservers(value, value);
    }

    /** `addValidator`: appends at the end. */
    method AddValidator(func: Handle)
      requires Valid()
      modifies this
      ensures Valid()
      ensures validators == old(validators) + [func]
      ensures value == old(value) && bindings == old(bindings) && calls == old(calls)
    {
      validators := validators + [func];
    }

    /** `removeValidator`: drops every occurrence of the function. */
    method RemoveValidator(func: Handle)
      requires Valid()
      modifies this
      ensures Valid()
      ensures validators == Without(old(validators), func)
      ensures value == old(value) && bindings == old(bindings) && calls == old(calls)
    {
      validators := Without(validators, func);
    }

    /** `bindFunction`: appends one function binding at the end. */
    method BindFunction(func: Handle)
      requires Valid()
      modifies this
      ensures Valid()
      ensures bindings == old(bindings) + [Binding(FunctionBinding, func)]
      ensures value == old(value) && validators == old(validators) && calls == old(calls)
    {
      bindings := bindings + [Binding(FunctionBinding, func)];
    }

    /** `unbindFunction` */
    method UnbindFunction(func: Handle)
      requires Valid()
      modifies this
      ensures Valid()
      ensures bindings == Unbound(old(bindings), FunctionBinding, func)
      ensures value == old(value) && validators == old(validators) && calls == old(calls)
    {
      Unbind(FunctionBinding, func);
    }

    /** `_unbind`: drops the bindings whose type and object both match. */
    method Unbind(kind: BindingType, target: Handle)
      requires Valid()
      modifies this
      ensures Valid()
      ensures bindings == Unbound(old(bindings), kind, target)
      ensures value == old(value) && validators == old(validators) && calls == old(calls)
    {
      bindings := Unbound(bindings, kind, target);
    }
  }
}
