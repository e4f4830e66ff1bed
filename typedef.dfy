/** `TypeDef`: the validated constraint bundle of one field, and the
    annotation a class declares for a field (a bare type or a TypeDef). */
module TypeDefs {
  import opened Python
  import opened Errors

  /** A keyword argument as received: left at None, an object of the
      expected kind, or some other object. */
  datatype Arg<T> = NoneArg | Given(value: T) | Other {
    /** The attribute stored for an accepted argument. */
    function Stored(): Option<T> {
      if Given? then Some(value) else None
    }
  }

  /** The argument that passes a stored attribute on unchanged. */
  function ArgOf<T>(o: Option<T>): Arg<T> {
    if o.Some? then Given(o.value) else NoneArg
  }

  /** A constructed TypeDef: each optional constraint is unset (None) or set. */
  datatype TypeDef<V> = TypeDef(
    typeof: TypeOf,
    required: Option<bool>,
    immutable: Option<bool>,
    choices: Option<seq<V>>,
    validateFn: Option<FnId>,
    convert: Option<bool>)

  /** A field's class annotation: a bare type, or a TypeDef. */
  datatype Annotation<V> = Bare(t: TypeOf) | Spec(d: TypeDef<V>) {
    /** The target of the type check. */
    function Target(): TypeOf {
      if Bare? then t else d.typeof
    }
  }

  /** `isinstance('', t)` does not raise. */
  predicate UsableAsType<V>(rt: Runtime<V>, t: TypeOf) {
    IsInstance(rt, rt.emptyStr, t).Some?
  }

  /** Every choice is an instance of `t`. */
  ghost predicate AllChoicesFit<V>(rt: Runtime<V>, t: TypeOf, choices: seq<V>) {
    forall i :: 0 <= i < |choices| ==> IsInstance(rt, choices[i], t) == Some(true)
  }

  /** The error raised for the first choice that is not an instance of `t`, if any. */
  function ChoicesError<V>(rt: Runtime<V>, t: TypeOf, choices: seq<V>): (e: Option<Error>)
    ensures e.Some? ==> e.value.Kind() == TypeError
    decreases |choices|
  {
    if choices == [] then None
    else match IsInstance(rt, choices[0], t)
      case None => Some(IsinstanceRaised)
      case Some(false) => Some(InvalidChoiceType)
      case Some(true) => ChoicesError(rt, t, choices[1..])
  }

  lemma {:induction false} ChoicesErrorNone<V>(rt: Runtime<V>, t: TypeOf, choices: seq<V>)
    ensures ChoicesError(rt, t, choices) == None <==> AllChoicesFit(rt, t, choices)
    decreases |choices|
  {
    if choices != [] {
      ChoicesErrorNone(rt, t, choices[1..]);
      if IsInstance(rt, choices[0], t) == Some(true) && AllChoicesFit(rt, t, choices[1..]) {
        forall i | 0 < i < |choices| ensures IsInstance(rt, choices[i], t) == Some(true) {
          assert choices[i] == choices[1..][i - 1];
        }
      }
    }
  }

  /** `TypeDef(typeof, required, immutable, choices, validate_fn, convert)`:
      the checks run in the order the source runs them, the first failure raises. */
  function NewTypeDef<V>(rt: Runtime<V>, typeof: TypeOf, required: Arg<bool>, immutable: Arg<bool>,
                         choices: Arg<seq<V>>, validateFn: Arg<FnId>, convert: Arg<bool>): Result<TypeDef<V>>
  {
    if !UsableAsType(rt, typeof) then Err(InvalidTypeof)
    else if required.Other? then Err(InvalidRequired)
    else if immutable.Other? then Err(InvalidImmutable)
    else if choices.Other? then Err(InvalidChoicesList)
    else if choices.Given? && ChoicesError(rt, typeof, choices.value).Some? then
      Err(ChoicesError(rt, typeof, choices.value).value)
    else if validateFn.Other? then Err(InvalidValidateFn)
    else if validateFn.Given? && rt.arity(validateFn.value) > 1 then
      Err(TooManyParameters(rt.arity(validateFn.value)))
    else if convert.Other? then Err(InvalidConvert)
    else Ok(TypeDef(typeof, required.Stored(), immutable.Stored(), choices.Stored(),
                    validateFn.Stored(), convert.Stored()))
  }

  /** The arguments a TypeDef accepts, stated without regard to check order. */
  ghost predicate Admissible<V>(rt: Runtime<V>, typeof: TypeOf, required: Arg<bool>, immutable: Arg<bool>,
                                choices: Arg<seq<V>>, validateFn: Arg<FnId>, convert: Arg<bool>)
  {
    && UsableAsType(rt, typeof)
    && !required.Other? && !immutable.Other? && !convert.Other?
    && !choices.Other? && (choices.Given? ==> AllChoicesFit(rt, typeof, choices.value))
    && !validateFn.Other? && (validateFn.Given? ==> rt.arity(validateFn.value) <= 1)
  }

  /** A TypeDef is built exactly from admissible arguments, and then stores them
      unchanged. A predicate of zero parameters is admissible too. */
  lemma NewTypeDefAccepts<V>(rt: Runtime<V>, typeof: TypeOf, required: Arg<bool>, immutable: Arg<bool>,
                             choices: Arg<seq<V>>, validateFn: Arg<FnId>, convert: Arg<bool>)
    ensures var r := NewTypeDef(rt, typeof, required, immutable, choices, validateFn, convert);
            && (r.Ok? <==> Admissible(rt, typeof, required, immutable, choices, validateFn, convert))
            && (r.Ok? ==> r.value == TypeDef(typeof, required.Stored(), immutable.Stored(), choices.Stored(),
                                             validateFn.Stored(), convert.Stored()))
  {
    if choices.Given? {
      ChoicesErrorNone(rt, typeof, choices.value);
    }
  }

  /** Only a predicate with more than one parameter raises ValueError; every
      other rejected TypeDef raises TypeError. */
  lemma NewTypeDefErrorKinds<V>(rt: Runtime<V>, typeof: TypeOf, required: Arg<bool>, immutable: Arg<bool>,
                                choices: Arg<seq<V>>, validateFn: Arg<FnId>, convert: Arg<bool>)
    ensures var r := NewTypeDef(rt, typeof, required, immutable, choices, validateFn, convert);
            r.Err? ==>
              && (r.error.Kind() == ValueError <==>
                    && UsableAsType(rt, typeof) && !required.Other? && !immutable.Other?
                    && !choices.Other? && (choices.Given? ==> AllChoicesFit(rt, typeof, choices.value))
                    && validateFn.Given? && rt.arity(validateFn.value) > 1)
              && (r.error.Kind() != ValueError ==> r.error.Kind() == TypeError)
  {
    if choices.Given? {
      ChoicesErrorNone(rt, typeof, choices.value);
    }
  }

  /** Rebuilding a TypeDef from its own attributes gives it back. */
  ghost predicate WellFormed<V>(rt: Runtime<V>, d: TypeDef<V>) {
    NewTypeDef(rt, d.typeof, ArgOf(d.required), ArgOf(d.immutable), ArgOf(d.choices),
               ArgOf(d.validateFn), ArgOf(d.convert)) == Ok(d)
  }

  lemma NewTypeDefWellFormed<V>(rt: Runtime<V>, typeof: TypeOf, required: Arg<bool>, immutable: Arg<bool>,
                                choices: Arg<seq<V>>, validateFn: Arg<FnId>, convert: Arg<bool>)
    ensures var r := NewTypeDef(rt, typeof, required, immutable, choices, validateFn, convert);
            r.Ok? ==> WellFormed(rt, r.value)
  {
    var r := NewTypeDef(rt, typeof, required, immutable, choices, validateFn, convert);
    if r.Ok? {
      var d := r.value;
      assert ArgOf(d.required) == required && ArgOf(d.immutable) == immutable;
      assert ArgOf(d.choices) == choices && ArgOf(d.validateFn) == validateFn && ArgOf(d.convert) == convert;
    }
  }
}
