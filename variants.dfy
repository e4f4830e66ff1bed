/** The stricter class flavours: `TypedClassStrict.__init__` and
    `TypedClassJson.__init__` rewrite every annotation into a TypeDef with
    defaults filled in, and then run the base constructor. */
module Variants {
  import opened Python
  import opened Errors
  import opened TypeDefs
  import opened Assignment
  import opened Construction

  datatype Variant = Strict | Json

  /** The TypeDef `TypedClassStrict.__init__` builds for one annotation:
      `required` and `immutable` default to True. */
  function StrictField<V>(rt: Runtime<V>, a: Annotation<V>): Result<TypeDef<V>> {
    match a
    case Spec(d) =>
      NewTypeDef(rt, d.typeof, Given(d.required.GetOr(true)), Given(d.immutable.GetOr(true)),
                 ArgOf(d.choices), ArgOf(d.validateFn), ArgOf(d.convert))
    case Bare(t) =>
      NewTypeDef(rt, t, Given(true), Given(true), NoneArg, NoneArg, NoneArg)
  }

  /** The TypeDef `TypedClassJson.__init__` builds for one annotation:
      `convert` defaults to True, and a bare type becomes required,
      immutable and converting. */
  function JsonField<V>(rt: Runtime<V>, a: Annotation<V>): Result<TypeDef<V>> {
    match a
    case Spec(d) =>
      NewTypeDef(rt, d.typeof, ArgOf(d.required), ArgOf(d.immutable),
                 ArgOf(d.choices), ArgOf(d.validateFn), Given(d.convert.GetOr(true)))
    case Bare(t) =>
      NewTypeDef(rt, t, Given(true), Given(true), NoneArg, NoneArg, Given(true))
  }

  function Rewrite<V>(rt: Runtime<V>, variant: Variant, a: Annotation<V>): Result<TypeDef<V>> {
    match variant
    case Strict => StrictField(rt, a)
    case Json => JsonField(rt, a)
  }

  /** The loop over the annotation keys that replaces each annotation, in
      place, by the TypeDef `step` gives for it; the first error stops it and
      leaves the keys before it rewritten. The declared keys never change. */
  function RewriteLoop<V>(step: Annotation<V> -> Result<TypeDef<V>>, specs: map<string, Annotation<V>>,
                          keys: seq<string>): (s: (map<string, Annotation<V>>, Option<Error>))
    requires InDomain(keys, specs)
    ensures s.0.Keys == specs.Keys
    decreases |keys|
  {
    if keys == [] then (specs, None)
    else
      var prev := RewriteLoop(step, specs, keys[..|keys| - 1]);
      var k := keys[|keys| - 1];
      if prev.1.Some? then prev
      else match step(prev.0[k])
        case Err(e) => (prev.0, Some(e))
        case Ok(d) => (prev.0[k := Spec(d)], None)
  }

  /** The rewrite of one annotation, as a function value. */
  function RewriteStep<V>(rt: Runtime<V>, variant: Variant): Annotation<V> -> Result<TypeDef<V>> {
    a => Rewrite(rt, variant, a)
  }

  /** The Strict or Json pass over the annotations. */
  function RewritePass<V>(rt: Runtime<V>, variant: Variant, specs: map<string, Annotation<V>>, keys: seq<string>)
    : (map<string, Annotation<V>>, Option<Error>)
    requires InDomain(keys, specs)
  {
    RewriteLoop(RewriteStep(rt, variant), specs, keys)
  }

  /** A TypeDef annotation was built by the TypeDef constructor (bare types
      are taken as written). */
  ghost predicate WellFormedAnnotation<V>(rt: Runtime<V>, a: Annotation<V>) {
    a.Spec? ==> WellFormed(rt, a.d)
  }

  ghost predicate AllWellFormed<V>(rt: Runtime<V>, specs: map<string, Annotation<V>>) {
    forall k :: k in specs ==> WellFormedAnnotation(rt, specs[k])
  }

  /** The effective constraints of a Strict field. */
  function StrictDefaults<V>(a: Annotation<V>): TypeDef<V> {
    match a
    case Spec(d) => d.(required := Some(d.required.GetOr(true)), immutable := Some(d.immutable.GetOr(true)))
    case Bare(t) => TypeDef(t, Some(true), Some(true), None, None, None)
  }

  /** The effective constraints of a Json field. */
  function JsonDefaults<V>(a: Annotation<V>): TypeDef<V> {
    match a
    case Spec(d) =>
      d.(required := Some(d.required.GetOr(true)), immutable := Some(d.immutable.GetOr(true)),
         convert := Some(d.convert.GetOr(true)))
    case Bare(t) => TypeDef(t, Some(true), Some(true), None, None, Some(true))
  }

  /** Rewriting a TypeDef with new flag values keeps it well formed. */
  lemma ReflaggedAccepted<V>(rt: Runtime<V>, d: TypeDef<V>, required: Arg<bool>, immutable: Arg<bool>, convert: Arg<bool>)
    requires WellFormed(rt, d)
    requires !required.Other? && !immutable.Other? && !convert.Other?
    ensures NewTypeDef(rt, d.typeof, required, immutable, ArgOf(d.choices), ArgOf(d.validateFn), convert)
            == Ok(d.(required := required.Stored(), immutable := immutable.Stored(), convert := convert.Stored()))
  {
    NewTypeDefAccepts(rt, d.typeof, ArgOf(d.required), ArgOf(d.immutable), ArgOf(d.choices),
                      ArgOf(d.validateFn), ArgOf(d.convert));
    NewTypeDefAccepts(rt, d.typeof, required, immutable, ArgOf(d.choices), ArgOf(d.validateFn), convert);
  }

  /** Strict rewriting fills unset `required` and `immutable` with True and
      copies everything else; it fails only for a bare annotation that is not
      a type, with TypeError. */
  lemma StrictFieldEffect<V>(rt: Runtime<V>, a: Annotation<V>)
    requires WellFormedAnnotation(rt, a)
    ensures StrictField(rt, a) == if UsableAsType(rt, a.Target()) then Ok(StrictDefaults(a)) else Err(InvalidTypeof)
  {
    if a.Spec? {
      var d := a.d;
      ReflaggedAccepted(rt, d, Given(d.required.GetOr(true)), Given(d.immutable.GetOr(true)), ArgOf(d.convert));
    }
  }

  /** Json rewriting fills an unset `convert` with True and copies everything
      else; a bare type becomes required, immutable and converting. */
  lemma JsonFieldEffect<V>(rt: Runtime<V>, a: Annotation<V>)
    requires WellFormedAnnotation(rt, a)
    ensures JsonField(rt, a)
            == if !UsableAsType(rt, a.Target()) then Err(InvalidTypeof)
               else if a.Spec? then Ok(a.d.(convert := Some(a.d.convert.GetOr(true))))
               else Ok(JsonDefaults(a))
  {
    if a.Spec? {
      var d := a.d;
      ReflaggedAccepted(rt, d, ArgOf(d.required), ArgOf(d.immutable), Given(d.convert.GetOr(true)));
    }
  }

  /** What TypedClassJson leaves after its own pass and the Strict pass it runs
      next: `required`, `immutable` and `convert` all default to True. */
  lemma JsonThenStrict<V>(rt: Runtime<V>, a: Annotation<V>)
    requires WellFormedAnnotation(rt, a)
    ensures var j := JsonField(rt, a);
            j.Ok? ==> StrictField(rt, Spec(j.value)) == Ok(JsonDefaults(a))
  {
    JsonFieldEffect(rt, a);
    var j := JsonField(rt, a);
    if j.Ok? {
      NewTypeDefWellFormed(rt, a.Target(), if a.Spec? then ArgOf(a.d.required) else Given(true),
                           if a.Spec? then ArgOf(a.d.immutable) else Given(true),
                           if a.Spec? then ArgOf(a.d.choices) else NoneArg,
                           if a.Spec? then ArgOf(a.d.validateFn) else NoneArg,
                           Given(if a.Spec? then a.d.convert.GetOr(true) else true));
      StrictFieldEffect(rt, Spec(j.value));
    }
  }

  /** Rewriting a field twice gives what rewriting it once gives. */
  lemma RewriteIdempotent<V>(rt: Runtime<V>, variant: Variant, a: Annotation<V>)
    ensures var r := Rewrite(rt, variant, a);
            r.Ok? ==> Rewrite(rt, variant, Spec(r.value)) == r
  {
    var r := Rewrite(rt, variant, a);
    if r.Ok? {
      match a
      case Spec(d) =>
        if variant == Strict {
          NewTypeDefWellFormed(rt, d.typeof, Given(d.required.GetOr(true)), Given(d.immutable.GetOr(true)),
                               ArgOf(d.choices), ArgOf(d.validateFn), ArgOf(d.convert));
        } else {
          NewTypeDefWellFormed(rt, d.typeof, ArgOf(d.required), ArgOf(d.immutable),
                               ArgOf(d.choices), ArgOf(d.validateFn), Given(d.convert.GetOr(true)));
        }
        StrictFieldEffect(rt, Spec(r.value));
        JsonFieldEffect(rt, Spec(r.value));
      case Bare(t) =>
        if variant == Strict {
          NewTypeDefWellFormed(rt, t, Given(true), Given(true), NoneArg, NoneArg, NoneArg);
        } else {
          NewTypeDefWellFormed(rt, t, Given(true), Given(true), NoneArg, NoneArg, Given(true));
        }
        StrictFieldEffect(rt, Spec(r.value));
        JsonFieldEffect(rt, Spec(r.value));
    }
  }

  /** A successful loop replaces every listed annotation by its rewrite and
      leaves every other one as it was. */
  lemma {:induction false} RewriteLoopResult<V>(step: Annotation<V> -> Result<TypeDef<V>>,
                                                specs: map<string, Annotation<V>>, keys: seq<string>)
    requires InDomain(keys, specs) && Distinct(keys)
    requires RewriteLoop(step, specs, keys).1 == None
    ensures var s := RewriteLoop(step, specs, keys).0;
            && (forall i :: 0 <= i < |keys| ==>
                  step(specs[keys[i]]).Ok? && s[keys[i]] == Spec(step(specs[keys[i]]).value))
            && (forall k :: k in specs && k !in keys ==> s[k] == specs[k])
    decreases |keys|
  {
    if keys != [] {
      var m := |keys| - 1;
      var pre := keys[..m];
      var k := keys[m];
      var prev := RewriteLoop(step, specs, pre);
      assert prev.1 == None;
      assert Distinct(pre) by {
        forall i, j | 0 <= i < j < m ensures pre[i] != pre[j] { assert pre[i] == keys[i] && pre[j] == keys[j]; }
      }
      RewriteLoopResult(step, specs, pre);
      forall i | 0 <= i < m ensures pre[i] == keys[i] && keys[i] != k { }
      assert k !in pre;
      var s := RewriteLoop(step, specs, keys).0;
      assert s == prev.0[k := Spec(step(specs[k]).value)];
      forall k' | k' in specs && k' !in keys ensures s[k'] == specs[k'] { }
    }
  }

  /** A loop over annotations that are already their own rewrite changes nothing. */
  lemma {:induction false} RewriteLoopFixed<V>(step: Annotation<V> -> Result<TypeDef<V>>,
                                               specs: map<string, Annotation<V>>, keys: seq<string>)
    requires InDomain(keys, specs)
    requires forall i :: 0 <= i < |keys| ==> specs[keys[i]].Spec? && step(specs[keys[i]]) == Ok(specs[keys[i]].d)
    ensures RewriteLoop(step, specs, keys) == (specs, None)
    decreases |keys|
  {
    if keys != [] {
      var m := |keys| - 1;
      RewriteLoopFixed(step, specs, keys[..m]);
      assert specs[keys[m] := Spec(specs[keys[m]].d)] == specs;
    }
  }

  /** A failed loop raises the error of a listed annotation whose rewrite fails. */
  lemma {:induction false} RewriteLoopFailure<V>(step: Annotation<V> -> Result<TypeDef<V>>,
                                                 specs: map<string, Annotation<V>>, keys: seq<string>)
    requires InDomain(keys, specs) && Distinct(keys)
    ensures var e := RewriteLoop(step, specs, keys).1;
            e.Some? ==> exists i :: 0 <= i < |keys| && step(specs[keys[i]]) == Err(e.value)
    decreases |keys|
  {
    if keys != [] {
      var m := |keys| - 1;
      var pre := keys[..m];
      forall i | 0 <= i < m ensures pre[i] == keys[i] && keys[i] != keys[m] { }
      RewriteLoopFailure(step, specs, pre);
      var prev := RewriteLoop(step, specs, pre);
      if prev.1.Some? {
        var i :| 0 <= i < m && step(specs[pre[i]]) == Err(prev.1.value);
      } else {
        RewriteLoopResult(step, specs, pre);
        assert prev.0[keys[m]] == specs[keys[m]];
      }
    }
  }

  /** One more step of the loop, from the state after the first `i` keys. */
  lemma RewriteLoopNext<V>(step: Annotation<V> -> Result<TypeDef<V>>, specs: map<string, Annotation<V>>,
                           keys: seq<string>, i: nat, cur: map<string, Annotation<V>>)
    requires InDomain(keys, specs) && i < |keys|
    requires RewriteLoop(step, specs, keys[..i]) == (cur, None)
    ensures RewriteLoop(step, specs, keys[..i + 1])
            == match step(cur[keys[i]])
               case Err(e) => (cur, Some(e))
               case Ok(d) => (cur[keys[i] := Spec(d)], None)
  {
    assert keys[..i + 1][..i] == keys[..i];
  }

  /** Once a rewrite has failed, the remaining keys are not looked at. */
  lemma {:induction false} RewriteLoopStops<V>(step: Annotation<V> -> Result<TypeDef<V>>,
                                               specs: map<string, Annotation<V>>, keys: seq<string>, n: nat)
    requires InDomain(keys, specs) && n <= |keys|
    requires RewriteLoop(step, specs, keys[..n]).1.Some?
    ensures RewriteLoop(step, specs, keys) == RewriteLoop(step, specs, keys[..n])
    decreases |keys| - n
  {
    if n < |keys| {
      var m := |keys| - 1;
      assert keys[..m][..n] == keys[..n];
      RewriteLoopStops(step, specs, keys[..m], n);
    } else {
      assert keys[..n] == keys;
    }
  }

  /** Running the Strict (or Json) pass a second time, as every later
      construction of the same class does, changes nothing. */
  lemma RewritePassIdempotent<V>(rt: Runtime<V>, variant: Variant, specs: map<string, Annotation<V>>, keys: seq<string>)
    requires InDomain(keys, specs) && Distinct(keys)
    requires RewritePass(rt, variant, specs, keys).1 == None
    ensures var s := RewritePass(rt, variant, specs, keys).0;
            RewritePass(rt, variant, s, keys) == (s, None)
  {
    var step := RewriteStep(rt, variant);
    var s := RewriteLoop(step, specs, keys).0;
    RewriteLoopResult(step, specs, keys);
    forall i | 0 <= i < |keys| ensures s[keys[i]].Spec? && step(s[keys[i]]) == Ok(s[keys[i]].d) {
      RewriteIdempotent(rt, variant, specs[keys[i]]);
    }
    RewriteLoopFixed(step, s, keys);
  }

  /** What a TypedClassJson field becomes after its first construction (the
      Json rewrite, then the Strict one) is left alone by both rewrites of
      every later construction. */
  lemma JsonSecondConstruction<V>(rt: Runtime<V>, a: Annotation<V>)
    ensures var j := JsonField(rt, a);
            j.Ok? ==>
              var s := StrictField(rt, Spec(j.value));
              && s.Ok?
              && JsonField(rt, Spec(s.value)) == s
              && StrictField(rt, Spec(s.value)) == s
  {
    var j := JsonField(rt, a);
    if j.Ok? {
      RewriteWellFormed(rt, Json, a);
      assert j.value.convert.Some?;
      StrictFieldEffect(rt, Spec(j.value));
      var s := StrictField(rt, Spec(j.value));
      RewriteWellFormed(rt, Strict, Spec(j.value));
      JsonFieldEffect(rt, Spec(s.value));
      StrictFieldEffect(rt, Spec(s.value));
    }
  }

  /** The annotations a TypedClassJson construction leaves (its Json pass,
      then the Strict pass) are left unchanged by both passes of the next one. */
  lemma JsonPassesSettle<V>(rt: Runtime<V>, specs: map<string, Annotation<V>>, keys: seq<string>)
    requires InDomain(keys, specs) && Distinct(keys)
    requires RewritePass(rt, Json, specs, keys).1 == None
    requires RewritePass(rt, Strict, RewritePass(rt, Json, specs, keys).0, keys).1 == None
    ensures var s := RewritePass(rt, Strict, RewritePass(rt, Json, specs, keys).0, keys).0;
            && RewritePass(rt, Json, s, keys) == (s, None)
            && RewritePass(rt, Strict, s, keys) == (s, None)
  {
    var js := RewriteStep(rt, Json);
    var ss := RewriteStep(rt, Strict);
    var j := RewriteLoop(js, specs, keys).0;
    RewriteLoopResult(js, specs, keys);
    var s := RewriteLoop(ss, j, keys).0;
    RewriteLoopResult(ss, j, keys);
    forall i | 0 <= i < |keys|
      ensures s[keys[i]].Spec? && js(s[keys[i]]) == Ok(s[keys[i]].d) && ss(s[keys[i]]) == Ok(s[keys[i]].d)
    {
      JsonSecondConstruction(rt, specs[keys[i]]);
    }
    RewriteLoopFixed(js, s, keys);
    RewriteLoopFixed(ss, s, keys);
  }

  /** Over well-formed annotations a pass fails only at a bare annotation that
      is not a type, raising TypeError. */
  lemma RewritePassFailure<V>(rt: Runtime<V>, variant: Variant, specs: map<string, Annotation<V>>, keys: seq<string>)
    requires InDomain(keys, specs) && Distinct(keys) && AllWellFormed(rt, specs)
    ensures var e := RewritePass(rt, variant, specs, keys).1;
            e.Some? ==>
              && e.value == InvalidTypeof && e.value.Kind() == TypeError
              && exists i :: 0 <= i < |keys| && specs[keys[i]].Bare? && !UsableAsType(rt, specs[keys[i]].t)
  {
    var step := RewriteStep(rt, variant);
    var e := RewriteLoop(step, specs, keys).1;
    RewriteLoopFailure(step, specs, keys);
    if e.Some? {
      var i :| 0 <= i < |keys| && step(specs[keys[i]]) == Err(e.value);
      var a := specs[keys[i]];
      StrictFieldEffect(rt, a);
      JsonFieldEffect(rt, a);
      if a.Spec? {
        NewTypeDefAccepts(rt, a.d.typeof, ArgOf(a.d.required), ArgOf(a.d.immutable), ArgOf(a.d.choices),
                          ArgOf(a.d.validateFn), ArgOf(a.d.convert));
      }
    }
  }

  /** A rewritten annotation is itself well formed. */
  lemma RewriteWellFormed<V>(rt: Runtime<V>, variant: Variant, a: Annotation<V>)
    ensures var r := Rewrite(rt, variant, a);
            r.Ok? ==> WellFormed(rt, r.value)
  {
    match a
    case Spec(d) =>
      NewTypeDefWellFormed(rt, d.typeof, Given(d.required.GetOr(true)), Given(d.immutable.GetOr(true)),
                           ArgOf(d.choices), ArgOf(d.validateFn), ArgOf(d.convert));
      NewTypeDefWellFormed(rt, d.typeof, ArgOf(d.required), ArgOf(d.immutable),
                           ArgOf(d.choices), ArgOf(d.validateFn), Given(d.convert.GetOr(true)));
    case Bare(t) =>
      NewTypeDefWellFormed(rt, t, Given(true), Given(true), NoneArg, NoneArg, NoneArg);
      NewTypeDefWellFormed(rt, t, Given(true), Given(true), NoneArg, NoneArg, Given(true));
  }

  /** `TypedClassStrict.__init__(**kwargs)`: the Strict pass, then the base constructor. */
  function ConstructStrict<V(==)>(rt: Runtime<V>, order: seq<string>, annotations: map<string, Annotation<V>>,
                                  defaults: map<string, V>, store: map<string, V>,
                                  defaultsKeys: Option<seq<string>>, kwargs: seq<(string, V)>): Instance<V>
    requires InDomain(order, annotations)
  {
    var (specs, e) := RewritePass(rt, Strict, annotations, order);
    if e.Some? then Instance(specs, store, defaultsKeys, Fail(e.value))
    else Construct(rt, order, specs, defaults, store, kwargs)
  }

  /** `TypedClassJson.__init__(json)`: the Json pass, then the Strict
      constructor on the entries of (a copy of) the mapping. */
  function ConstructJson<V(==)>(rt: Runtime<V>, order: seq<string>, annotations: map<string, Annotation<V>>,
                                defaults: map<string, V>, store: map<string, V>,
                                defaultsKeys: Option<seq<string>>, json: seq<(string, V)>): Instance<V>
    requires InDomain(order, annotations)
  {
    var (specs, e) := RewritePass(rt, Json, annotations, order);
    if e.Some? then Instance(specs, store, defaultsKeys, Fail(e.value))
    else ConstructStrict(rt, order, specs, defaults, store, defaultsKeys, json)
  }

  /** Every later TypedClassJson construction of a class whose first one got
      through both passes is the base constructor over the annotations that
      first one left. */
  lemma JsonConstructionSettles<V>(rt: Runtime<V>, order: seq<string>, annotations: map<string, Annotation<V>>,
                                   defaults: map<string, V>, store: map<string, V>,
                                   defaultsKeys: Option<seq<string>>, json: seq<(string, V)>,
                                   laterStore: map<string, V>, laterKeys: Option<seq<string>>,
                                   laterJson: seq<(string, V)>)
    requires Declares(order, annotations)
    requires RewritePass(rt, Json, annotations, order).1 == None
    requires RewritePass(rt, Strict, RewritePass(rt, Json, annotations, order).0, order).1 == None
    ensures var s := ConstructJson(rt, order, annotations, defaults, store, defaultsKeys, json).annotations;
            && s == RewritePass(rt, Strict, RewritePass(rt, Json, annotations, order).0, order).0
            && ConstructJson(rt, order, s, defaults, laterStore, laterKeys, laterJson)
               == Construct(rt, order, s, defaults, laterStore, laterJson)
  {
    assert Distinct(order);
    JsonPassesSettle(rt, annotations, order);
    var j := RewritePass(rt, Json, annotations, order).0;
    var s := RewritePass(rt, Strict, j, order).0;
    ConstructPhases(rt, order, s, defaults, store, json);
  }

  /** A TypedClassJson field whose type is a tuple and that does not turn
      `convert` off can never be assigned: after both rewrites it converts,
      and a tuple cannot be called. */
  lemma JsonTupleFieldUnassignable<V>(rt: Runtime<V>, a: Annotation<V>, annotations: map<string, Annotation<V>>,
                                      store: map<string, V>, defaults: map<string, V>,
                                      defaultsKeys: Option<seq<string>>, key: string, value: V)
    requires a.Target().Tuple? && (a.Spec? ==> a.d.convert != Some(false))
    requires JsonField(rt, a).Ok? && StrictField(rt, Spec(JsonField(rt, a).value)).Ok?
    requires key in annotations && annotations[key] == Spec(StrictField(rt, Spec(JsonField(rt, a).value)).value)
    ensures Validate(rt, annotations, store, defaults, defaultsKeys, key, value) == Err(NotCallable(key))
  {
    var j := JsonField(rt, a).value;
    if a.Spec? {
      var d := a.d;
      NewTypeDefAccepts(rt, d.typeof, ArgOf(d.required), ArgOf(d.immutable), ArgOf(d.choices),
                        ArgOf(d.validateFn), Given(d.convert.GetOr(true)));
      assert d.convert.GetOr(true) by { if d.convert.Some? { assert d.convert.value; } }
    } else {
      NewTypeDefAccepts(rt, a.t, Given(true), Given(true), NoneArg, NoneArg, Given(true));
    }
    assert j.typeof == a.Target() && j.convert == Some(true);
    NewTypeDefAccepts(rt, j.typeof, Given(j.required.GetOr(true)), Given(j.immutable.GetOr(true)),
                      ArgOf(j.choices), ArgOf(j.validateFn), ArgOf(j.convert));
    ConversionRaisesFirst(rt, annotations, store, defaults, defaultsKeys, key, value);
  }

  /** After a successful Strict pass a field that does not opt out of
      `required` is a required TypeDef field. */
  lemma StrictPassRequires<V>(rt: Runtime<V>, order: seq<string>, annotations: map<string, Annotation<V>>,
                              key: string)
    requires Declares(order, annotations) && AllWellFormed(rt, annotations)
    requires key in annotations && (annotations[key].Spec? ==> annotations[key].d.required != Some(false))
    requires RewritePass(rt, Strict, annotations, order).1 == None
    ensures var specs := RewritePass(rt, Strict, annotations, order).0;
            Declares(order, specs) && specs[key].Spec? && specs[key].d.required == Some(true)
  {
    var step := RewriteStep(rt, Strict);
    var specs := RewriteLoop(step, annotations, order).0;
    assert Distinct(order);
    RewriteLoopResult(step, annotations, order);
    var i :| 0 <= i < |order| && order[i] == key;
    var r := Rewrite(rt, Strict, annotations[key]);
    assert r.Ok? && specs[key] == Spec(r.value);
    StrictFieldEffect(rt, annotations[key]);
    assert r.value == StrictDefaults(annotations[key]);
    if annotations[key].Spec? {
      var req := annotations[key].d.required;
      assert req.GetOr(true) by { if req.Some? { assert req.value; } }
    }
  }

  /** A Strict instance cannot be built without a value for a field that does
      not opt out of `required`: if nothing else fails first, the missing-fields
      error names it. */
  lemma StrictNeedsField<V>(rt: Runtime<V>, order: seq<string>, annotations: map<string, Annotation<V>>,
                            defaults: map<string, V>, store: map<string, V>, defaultsKeys: Option<seq<string>>,
                            kwargs: seq<(string, V)>, key: string)
    requires Declares(order, annotations) && AllWellFormed(rt, annotations)
    requires key in annotations && (annotations[key].Spec? ==> annotations[key].d.required != Some(false))
    requires key !in store && key !in defaults && !Assigns(rt, kwargs, key)
    ensures var inst := ConstructStrict(rt, order, annotations, defaults, store, defaultsKeys, kwargs);
            && inst.outcome.Fail?
            && (inst.outcome.error.MissingRequired? ==> key in inst.outcome.error.keys)
            && (!inst.outcome.error.MissingRequired? ==>
                  inst.outcome.error == InvalidTypeof || inst.outcome.error.RaisedByAssignment())
  {
    var (specs, e) := RewritePass(rt, Strict, annotations, order);
    assert Distinct(order);
    RewritePassFailure(rt, Strict, annotations, order);
    if e == None {
      StrictPassRequires(rt, order, annotations, key);
      ConstructNeedsField(rt, order, specs, defaults, store, kwargs, key);
    }
  }
}
