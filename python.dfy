/** The Python objects and built-ins the validation engine relies on.

    Everything the engine does not define itself (class membership, calling a
    type or a user predicate, reading a nested object's `attributes`) is handed
    in as a `Runtime`: a record of total functions the model never looks into.
 */
module Python {

  datatype Option<T> = None | Some(value: T) {
    /** The value held, or `default` when there is none. */
    function GetOr(default: T): T {
      if Some? then value else default
    }
  }

  /** Identifies a Python class: anything `isinstance` accepts as a single target. */
  type ClassId = nat

  /** Identifies a Python callable. */
  type FnId = nat

  /** An object standing where a type is expected: a class, or any other object. */
  datatype TypeObj = Class(cls: ClassId) | NotAType

  /** What may be given as a field's type: one object, or a tuple of objects. */
  datatype TypeOf = Single(obj: TypeObj) | Tuple(items: seq<TypeObj>)

  /** The behaviour of code outside the engine, left uninterpreted. */
  datatype Runtime<!V> = Runtime(
    none: V,                                   // the object None
    emptyStr: V,                               // the string ''
    instanceOf: (V, ClassId) -> bool,          // isinstance(v, c) for one class c
    construct: (ClassId, V) -> V,              // the call c(v)
    arity: FnId -> nat,                        // number of parameters in the signature of f
    call: (FnId, V) -> Option<bool>,           // f(v); None when f returns something other than a bool
    attributesOf: V -> Option<map<string, V>>, // v.attributes, when v has such an attribute
    mkDict: map<string, V> -> V                // the dict object holding exactly these entries
  )

  /** `isinstance(v, o)` for one object `o`; None when `isinstance` raises TypeError. */
  function InstanceOfObj<V>(rt: Runtime<V>, v: V, o: TypeObj): Option<bool> {
    match o
    case Class(c) => Some(rt.instanceOf(v, c))
    case NotAType => None
  }

  /** `isinstance(v, items)` for a tuple: the items are tried from left to right,
      and the first match or the first error ends the scan. */
  function InstanceOfAny<V>(rt: Runtime<V>, v: V, items: seq<TypeObj>): Option<bool>
    decreases |items|
  {
    if items == [] then Some(false)
    else match InstanceOfObj(rt, v, items[0])
      case None => None
      case Some(true) => Some(true)
      case Some(false) => InstanceOfAny(rt, v, items[1..])
  }

  /** `isinstance(v, t)`; None when it raises TypeError. */
  function IsInstance<V>(rt: Runtime<V>, v: V, t: TypeOf): Option<bool> {
    match t
    case Single(o) => InstanceOfObj(rt, v, o)
    case Tuple(items) => InstanceOfAny(rt, v, items)
  }

  /** A tuple of classes is an "any of" check. */
  lemma {:induction false} TupleOfClasses<V>(rt: Runtime<V>, v: V, items: seq<TypeObj>)
    requires forall i :: 0 <= i < |items| ==> items[i].Class?
    ensures IsInstance(rt, v, Tuple(items))
            == Some(exists i :: 0 <= i < |items| && rt.instanceOf(v, items[i].cls))
  {
    if items != [] {
      TupleOfClasses(rt, v, items[1..]);
      if !rt.instanceOf(v, items[0].cls) {
        if exists i :: 0 <= i < |items| && rt.instanceOf(v, items[i].cls) {
          var i :| 0 <= i < |items| && rt.instanceOf(v, items[i].cls);
          assert items[1..][i - 1] == items[i];
        }
      }
    }
  }

  /** A tuple makes `isinstance` raise exactly when a non-type item is reached,
      that is, when every item before it is a class the value does not belong to. */
  lemma {:induction false} TupleRaises<V>(rt: Runtime<V>, v: V, items: seq<TypeObj>)
    ensures InstanceOfAny(rt, v, items) == None
            <==> exists i :: 0 <= i < |items| && items[i].NotAType? && NoMatchBefore(rt, v, items, i)
  {
    if items != [] {
      TupleRaises(rt, v, items[1..]);
      match items[0]
      case NotAType =>
        assert NoMatchBefore(rt, v, items, 0);
      case Class(c) =>
        if rt.instanceOf(v, c) {
          forall i | 0 < i < |items| ensures !NoMatchBefore(rt, v, items, i) {
            assert !(items[0].Class? && !rt.instanceOf(v, items[0].cls));
          }
        } else {
          forall i | 0 < i < |items|
            ensures NoMatchBefore(rt, v, items, i) <==> NoMatchBefore(rt, v, items[1..], i - 1)
          {
            if NoMatchBefore(rt, v, items[1..], i - 1) {
              forall j | 0 <= j < i ensures items[j].Class? && !rt.instanceOf(v, items[j].cls) {
                if j > 0 { assert items[j] == items[1..][j - 1]; }
              }
            }
            if NoMatchBefore(rt, v, items, i) {
              forall j | 0 <= j < i - 1
                ensures items[1..][j].Class? && !rt.instanceOf(v, items[1..][j].cls)
              {
                assert items[1..][j] == items[j + 1];
              }
            }
          }
          if InstanceOfAny(rt, v, items) == None {
            var i :| 0 <= i < |items[1..]| && items[1..][i].NotAType? && NoMatchBefore(rt, v, items[1..], i);
            assert items[i + 1].NotAType?;
          }
        }
    }
  }

  /** Every item before index `i` is a class that `v` is not an instance of. */
  ghost predicate NoMatchBefore<V>(rt: Runtime<V>, v: V, items: seq<TypeObj>, i: int)
    requires 0 <= i <= |items|
  {
    forall j :: 0 <= j < i ==> items[j].Class? && !rt.instanceOf(v, items[j].cls)
  }
}
