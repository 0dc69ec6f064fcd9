/**
 * `isDefined`: the nullish test used throughout the container, in its two
 * copies (the container package's and the common package's).
 */
module Definedness {

  /** A JavaScript value, told apart only as far as the nullish test can see. */
  datatype JsValue =
    | Undefined
    | Null
    | Bool(b: bool)
    | Number(n: int)
    | Text(s: string)
    | Object(id: nat)
    | Array(items: seq<JsValue>)
    | Function(id: nat)
    | Date(time: int)

  /** The container package's `isDefined`: neither `null` nor `undefined`. */
  predicate IsDefined(v: JsValue): (r: bool)
    ensures !r <==> v.Null? || v.Undefined?
    ensures v.Text? || v.Number? || v.Bool? || v.Array? || v.Object? || v.Function? || v.Date? ==> r
  {
    v != Null && v != Undefined
  }

  /** The common package's `isDefined`, written separately with the same test. */
  predicate IsDefinedCommon(v: JsValue): (r: bool)
    ensures r == IsDefined(v)
  {
    v != Null && v != Undefined
  }

  /** Only `null` and `undefined` fail the test; falsy values pass it. */
  lemma NullishOnly(v: JsValue)
    ensures !IsDefined(v) <==> v.Null? || v.Undefined?
    ensures IsDefined(Text("")) && IsDefined(Number(0)) && IsDefined(Bool(false))
    ensures IsDefined(Array([])) && IsDefined(Object(0)) && IsDefined(Function(0)) && IsDefined(Date(0))
  {
  }

  /** The two copies agree on every value. */
  lemma CopiesAgree(v: JsValue)
    ensures IsDefined(v) == IsDefinedCommon(v)
  {
  }

  /** `values.filter(isDefined)`. */
  function FilterDefined(values: seq<JsValue>): (r: seq<JsValue>)
    ensures |r| <= |values|
    ensures forall x :: x in r <==> x in values && IsDefined(x)
    decreases |values|
  {
    if values == [] then []
    else if IsDefined(values[0]) then [values[0]] + FilterDefined(values[1..])
    else FilterDefined(values[1..])
  }

  /** Filtering keeps the original order: it distributes over concatenation. */
  lemma {:induction false} FilterKeepsOrder(xs: seq<JsValue>, ys: seq<JsValue>)
    ensures FilterDefined(xs + ys) == FilterDefined(xs) + FilterDefined(ys)
    decreases |xs|
  {
    if xs == [] {
      assert xs + ys == ys;
    } else {
      assert (xs + ys)[1..] == xs[1..] + ys;
      FilterKeepsOrder(xs[1..], ys);
    }
  }

  /** A sequence with nothing nullish in it is kept whole. */
  lemma {:induction false} FilterKeepsDefined(values: seq<JsValue>)
    requires forall i :: 0 <= i < |values| ==> IsDefined(values[i])
    ensures FilterDefined(values) == values
    decreases |values|
  {
    if values != [] {
      FilterKeepsDefined(values[1..]);
    }
  }
}
