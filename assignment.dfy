/** The check pipeline every field assignment runs before it commits:
    unknown key, conversion, type check, immutability, choices, predicate. */
module Assignment {
  import opened Python
  import opened Errors
  import opened TypeDefs

  /** Python truthiness of an optional bool attribute. */
  predicate IsTrue(f: Option<bool>) {
    f == Some(true)
  }

  /** The value after the optional conversion `typeof(value)`. Only a single
      class can be called; calling a tuple raises TypeError. */
  function Conversion<V>(rt: Runtime<V>, key: string, a: Annotation<V>, v: V): Result<V> {
    if a.Spec? && IsTrue(a.d.convert) then
      match a.d.typeof
      case Single(Class(c)) => Ok(rt.construct(c, v))
      case _ => Err(NotCallable(key))
    else Ok(v)
  }

  /** The error of the type check `isinstance(v, t)`, if it fails. */
  function TypeCheckError<V>(rt: Runtime<V>, key: string, t: TypeOf, v: V): Option<Error> {
    match IsInstance(rt, v, t)
    case None => Some(IsinstanceRaised)
    case Some(false) => Some(WrongType(key))
    case Some(true) => None
  }

  /** The field is immutable and already holds a value that is not a class
      default the running constructor may still replace. */
  predicate WriteBlocked<V>(d: TypeDef<V>, key: string, store: map<string, V>, defaults: map<string, V>,
                            defaultsKeys: Option<seq<string>>)
  {
    IsTrue(d.immutable)
    && (key in store || (key in defaults && !(defaultsKeys.Some? && key in defaultsKeys.value)))
  }

  function ImmutabilityError<V>(d: TypeDef<V>, key: string, store: map<string, V>, defaults: map<string, V>,
                                defaultsKeys: Option<seq<string>>): Option<Error>
  {
    if !IsTrue(d.immutable) then None
    else if key in store then Some(ImmutableAttribute(key))
    else if key in defaults && !(defaultsKeys.Some? && key in defaultsKeys.value) then Some(ImmutableDefault(key))
    else None
  }

  function ChoiceError<V(==)>(d: TypeDef<V>, key: string, v: V): Option<Error> {
    if d.choices.Some? && v !in d.choices.value then Some(InvalidChoice(key)) else None
  }

  function PredicateError<V>(rt: Runtime<V>, d: TypeDef<V>, key: string, v: V): Option<Error> {
    if d.validateFn.None? then None
    else match rt.call(d.validateFn.value, v)
      case None => Some(ValidateFnNotBool(key))
      case Some(false) => Some(ValidateFnFailed(key))
      case Some(true) => None
  }

  /** The conversion succeeds and the converted value passes the type check. */
  ghost predicate TypeChecks<V>(rt: Runtime<V>, key: string, a: Annotation<V>, value: V) {
    Conversion(rt, key, a, value).Ok?
    && IsInstance(rt, Conversion(rt, key, a, value).value, a.Target()) == Some(true)
  }

  /** The values an assignment accepts, stated without regard to check order. */
  ghost predicate Accepted<V>(rt: Runtime<V>, annotations: map<string, Annotation<V>>, store: map<string, V>,
                              defaults: map<string, V>, defaultsKeys: Option<seq<string>>, key: string, value: V)
  {
    && key in annotations
    && var a := annotations[key];
       && TypeChecks(rt, key, a, value)
       && var v := Conversion(rt, key, a, value).value;
          a.Spec? ==>
            && !WriteBlocked(a.d, key, store, defaults, defaultsKeys)
            && (a.d.choices.Some? ==> v in a.d.choices.value)
            && (a.d.validateFn.Some? ==> rt.call(a.d.validateFn.value, v) == Some(true))
  }

  /** `__setattr__(key, value)` up to the commit: the value to store, or the
      error raised. `store` is the instance's own values, `defaults` the class
      level ones, and `defaultsKeys` the keys with a default while the
      constructor runs (None afterwards). */
  function Validate<V(==)>(rt: Runtime<V>, annotations: map<string, Annotation<V>>, store: map<string, V>,
                           defaults: map<string, V>, defaultsKeys: Option<seq<string>>,
                           key: string, value: V): (r: Result<V>)
    ensures key !in annotations ==> r == Err(UnknownAttribute(key))
    ensures r.Ok? <==> Accepted(rt, annotations, store, defaults, defaultsKeys, key, value)
    ensures r.Ok? ==> Conversion(rt, key, annotations[key], value) == Ok(r.value)
    ensures r.Err? ==> r.error.RaisedByAssignment()
  {
    if key !in annotations then Err(UnknownAttribute(key))
    else
      var a := annotations[key];
      match a
      case Bare(t) =>
        var te := TypeCheckError(rt, key, t, value);
        if te.Some? then Err(te.value) else Ok(value)
      case Spec(d) =>
        match Conversion(rt, key, a, value)
        case Err(e) => Err(e)
        case Ok(v) =>
          var te := TypeCheckError(rt, key, d.typeof, v);
          var ie := ImmutabilityError(d, key, store, defaults, defaultsKeys);
          var ce := ChoiceError(d, key, v);
          var pe := PredicateError(rt, d, key, v);
          if te.Some? then Err(te.value)
          else if ie.Some? then Err(ie.value)
          else if ce.Some? then Err(ce.value)
          else if pe.Some? then Err(pe.value)
          else Ok(v)
  }

  /** The type check runs on the converted value, and its failure is what is
      raised whatever the later checks would say. */
  lemma TypeCheckFirst<V>(rt: Runtime<V>, annotations: map<string, Annotation<V>>, store: map<string, V>,
                          defaults: map<string, V>, defaultsKeys: Option<seq<string>>, key: string, value: V)
    requires key in annotations
    requires Conversion(rt, key, annotations[key], value).Ok?
    ensures var v := Conversion(rt, key, annotations[key], value).value;
            var r := Validate(rt, annotations, store, defaults, defaultsKeys, key, value);
            && (IsInstance(rt, v, annotations[key].Target()) == None ==> r == Err(IsinstanceRaised))
            && (IsInstance(rt, v, annotations[key].Target()) == Some(false) ==> r == Err(WrongType(key)))
  {
  }

  /** With conversion on and a type that is not a single class (a tuple), the
      call `typeof(value)` raises TypeError before any other check. */
  lemma ConversionRaisesFirst<V>(rt: Runtime<V>, annotations: map<string, Annotation<V>>, store: map<string, V>,
                                 defaults: map<string, V>, defaultsKeys: Option<seq<string>>, key: string, value: V)
    requires key in annotations && annotations[key].Spec? && IsTrue(annotations[key].d.convert)
    requires !(annotations[key].d.typeof.Single? && annotations[key].d.typeof.obj.Class?)
    ensures Validate(rt, annotations, store, defaults, defaultsKeys, key, value) == Err(NotCallable(key))
  {
  }

  /** With conversion on and a class as the type, the committed value is the
      class applied to the assigned value, and it is an instance of it. */
  lemma ConvertedValueCommitted<V>(rt: Runtime<V>, annotations: map<string, Annotation<V>>,
                                   store: map<string, V>, defaults: map<string, V>,
                                   defaultsKeys: Option<seq<string>>, key: string, value: V, c: ClassId)
    requires key in annotations && annotations[key].Spec?
    requires IsTrue(annotations[key].d.convert) && annotations[key].d.typeof == Single(Class(c))
    ensures var r := Validate(rt, annotations, store, defaults, defaultsKeys, key, value);
            r.Ok? ==> r.value == rt.construct(c, value) && rt.instanceOf(r.value, c)
  {
  }

  /** Write-once: an immutable field holding an instance value rejects every
      later assignment, even of an equal value. */
  lemma WriteOnce<V>(rt: Runtime<V>, annotations: map<string, Annotation<V>>, store: map<string, V>,
                     defaults: map<string, V>, defaultsKeys: Option<seq<string>>, key: string, value: V)
    requires key in annotations && annotations[key].Spec? && IsTrue(annotations[key].d.immutable)
    requires key in store
    ensures var r := Validate(rt, annotations, store, defaults, defaultsKeys, key, value);
            && r.Err?
            && (TypeChecks(rt, key, annotations[key], value) ==> r == Err(ImmutableAttribute(key)))
  {
  }

  /** A class default of an immutable field may be replaced by the running
      constructor, which lists it among the keys with defaults, and not after. */
  lemma DefaultReplacedOnlyDuringConstruction<V>(rt: Runtime<V>, annotations: map<string, Annotation<V>>,
                                                 store: map<string, V>, defaults: map<string, V>,
                                                 withDefaults: seq<string>, key: string, value: V)
    requires key in annotations && annotations[key].Spec? && IsTrue(annotations[key].d.immutable)
    requires key !in store && key in defaults && key in withDefaults
    requires TypeChecks(rt, key, annotations[key], value)
    ensures Validate(rt, annotations, store, defaults, None, key, value) == Err(ImmutableDefault(key))
    ensures var d := annotations[key].d;
            var v := Conversion(rt, key, annotations[key], value).value;
            Validate(rt, annotations, store, defaults, Some(withDefaults), key, value).Ok?
            <==> (d.choices.Some? ==> v in d.choices.value)
                 && (d.validateFn.Some? ==> rt.call(d.validateFn.value, v) == Some(true))
  {
  }

  /** A value outside the choices is rejected before the predicate is asked. */
  lemma ChoicesBeforePredicate<V>(rt: Runtime<V>, annotations: map<string, Annotation<V>>,
                                  store: map<string, V>, defaults: map<string, V>,
                                  defaultsKeys: Option<seq<string>>, key: string, value: V)
    requires key in annotations && annotations[key].Spec?
    requires TypeChecks(rt, key, annotations[key], value)
    requires !WriteBlocked(annotations[key].d, key, store, defaults, defaultsKeys)
    requires var d := annotations[key].d;
             d.choices.Some? && Conversion(rt, key, annotations[key], value).value !in d.choices.value
    ensures Validate(rt, annotations, store, defaults, defaultsKeys, key, value) == Err(InvalidChoice(key))
  {
  }

  /** A predicate result that is not a bool raises its own TypeError, False
      raises the failed-predicate TypeError, and only True lets the value in. */
  lemma PredicateVerdict<V>(rt: Runtime<V>, annotations: map<string, Annotation<V>>, store: map<string, V>,
                            defaults: map<string, V>, defaultsKeys: Option<seq<string>>,
                            key: string, value: V, f: FnId)
    requires key in annotations && annotations[key].Spec? && annotations[key].d.validateFn == Some(f)
    requires TypeChecks(rt, key, annotations[key], value)
    requires !WriteBlocked(annotations[key].d, key, store, defaults, defaultsKeys)
    requires var v := Conversion(rt, key, annotations[key], value).value;
             var d := annotations[key].d;
             d.choices.Some? ==> v in d.choices.value
    ensures var v := Conversion(rt, key, annotations[key], value).value;
            var r := Validate(rt, annotations, store, defaults, defaultsKeys, key, value);
            && (rt.call(f, v) == None ==> r == Err(ValidateFnNotBool(key)))
            && (rt.call(f, v) == Some(false) ==> r == Err(ValidateFnFailed(key)))
            && (rt.call(f, v) == Some(true) ==> r == Ok(v))
  {
  }
}
