/** `TypedClass` as an object: the declared annotations, the class level
    defaults, the instance's own values, and the guarded operations that
    change them. */
module TypedClasses {
  import opened Python
  import opened Errors
  import opened TypeDefs
  import opened Assignment
  import opened Construction
  import opened Variants
  import opened Views

  /** `__delattr__(key)`: a field whose TypeDef is immutable cannot be deleted;
      otherwise the instance value is removed, and deleting a field without
      one raises. A bare-typed field counts as not immutable. */
  function DeleteField<V>(annotations: map<string, Annotation<V>>, store: map<string, V>, key: string)
    : (r: Result<map<string, V>>)
    ensures r.Err? ==> r.error.Kind() == AttributeError
    ensures r.Ok? <==> key in store && !(key in annotations && annotations[key].Spec? && IsTrue(annotations[key].d.immutable))
    ensures r.Ok? ==> r.value.Keys == store.Keys - {key} && forall k :: k in r.value ==> r.value[k] == store[k]
  {
    if key in annotations && annotations[key].Spec? && IsTrue(annotations[key].d.immutable) then
      Err(ImmutableDelete(key))
    else if key !in store then Err(NoSuchAttribute(key))
    else Ok(store - {key})
  }

  /** After a deletion the field reads as its class default again, or is
      absent from `attributes`; every other field reads as before. */
  lemma DeleteRevealsDefault<V>(annotations: map<string, Annotation<V>>, store: map<string, V>,
                                defaults: map<string, V>, key: string)
    requires DeleteField(annotations, store, key).Ok?
    ensures var before := AttributesView(annotations, store, defaults);
            var after := AttributesView(annotations, DeleteField(annotations, store, key).value, defaults);
            after == if key in annotations && key in defaults then before[key := defaults[key]] else before - {key}
  {
    var before := AttributesView(annotations, store, defaults);
    var after := AttributesView(annotations, DeleteField(annotations, store, key).value, defaults);
    var expected := if key in annotations && key in defaults then before[key := defaults[key]] else before - {key};
    assert forall k :: k in after <==> k in expected;
  }

  /** A deleted required field without a default is reported by the next
      construction that does not set it again. */
  lemma DeletedRequiredIsUnset<V>(annotations: map<string, Annotation<V>>, store: map<string, V>,
                                  defaults: map<string, V>, key: string)
    requires key in annotations && annotations[key].Spec? && IsTrue(annotations[key].d.required)
    requires key !in defaults && DeleteField(annotations, store, key).Ok?
    ensures RequiredUnset(annotations[key], key, DeleteField(annotations, store, key).value, defaults)
  {
  }

  class TypedObject<V(==)> {
    /** The foreign behaviour the checks call into. */
    const rt: Runtime<V>
    /** The annotation keys in declaration order. */
    const fieldOrder: seq<string>
    /** The class level attribute values. */
    const defaults: map<string, V>
    /** The class's annotations; the Strict and Json constructors rewrite them. */
    var annotations: map<string, Annotation<V>>
    /** The instance's own values. */
    var store: map<string, V>
    /** The keys with defaults while a constructor runs, None otherwise. */
    var defaultsKeys: Option<seq<string>>

    /** The declared keys: the rewrites change annotations, never their keys. */
    ghost const declared: set<string>

    /** The declared keys are listed once each, and only declared fields hold values. */
    ghost predicate Valid()
      reads this
    {
      ListsOnce(fieldOrder, declared) && annotations.Keys == declared && store.Keys <= declared
    }

    /** A new, empty instance of a class with these annotations and defaults. */
    constructor (rt: Runtime<V>, fieldOrder: seq<string>, annotations: map<string, Annotation<V>>,
                 defaults: map<string, V>)
      requires Declares(fieldOrder, annotations)
      ensures Valid()
      ensures this.rt == rt && this.fieldOrder == fieldOrder && this.annotations == annotations
      ensures this.defaults == defaults && store == map[] && defaultsKeys == None
    {
      this.rt := rt;
      this.fieldOrder := fieldOrder;
      this.annotations := annotations;
      this.defaults := defaults;
      declared := annotations.Keys;
      store := map[];
      defaultsKeys := None;
    }

    /** `__setattr__(key, value)`: the checks in order, the first failure
        raises; on success the (converted) value is committed. */
    method SetAttr(key: string, value: V) returns (r: Outcome)
      requires Valid()
      modifies this`store
      ensures Valid()
      ensures var v := Validate(rt, annotations, old(store), defaults, defaultsKeys, key, value);
              && (v.Ok? ==> r == Pass && store == old(store)[key := v.value])
              && (v.Err? ==> r == Fail(v.error) && store == old(store))
    {
      if key !in annotations {
        return Fail(UnknownAttribute(key));
      }
      var a := annotations[key];
      var v := value;
      if a.Spec? && IsTrue(a.d.convert) {
        if !(a.d.typeof.Single? && a.d.typeof.obj.Class?) {
          return Fail(NotCallable(key));
        }
        v := rt.construct(a.d.typeof.obj.cls, value);
      }
      var te := TypeCheckError(rt, key, a.Target(), v);
      if te.Some? {
        return Fail(te.value);
      }
      if a.Spec? {
        var ie := ImmutabilityError(a.d, key, store, defaults, defaultsKeys);
        if ie.Some? {
          return Fail(ie.value);
        }
        var ce := ChoiceError(a.d, key, v);
        if ce.Some? {
          return Fail(ce.value);
        }
        var pe := PredicateError(rt, a.d, key, v);
        if pe.Some? {
          return Fail(pe.value);
        }
      }
      store := store[key := v];
      r := Pass;
    }

    /** `__delattr__(key)`. */
    method DelAttr(key: string) returns (r: Outcome)
      requires Valid()
      modifies this`store
      ensures Valid()
      ensures var d := DeleteField(annotations, old(store), key);
              && (d.Ok? ==> r == Pass && store == d.value)
              && (d.Err? ==> r == Fail(d.error) && store == old(store))
    {
      if key in annotations && annotations[key].Spec? && IsTrue(annotations[key].d.immutable) {
        return Fail(ImmutableDelete(key));
      }
      if key !in store {
        return Fail(NoSuchAttribute(key));
      }
      store := store - {key};
      r := Pass;
    }

    /** The first loop of `TypedClass.__init__`: the declared keys, in
        order, that already hold a value or a default. */
    method KeysWithValues() returns (keys: seq<string>)
      ensures keys == DefaultsKeys(fieldOrder, store, defaults)
    {
      keys := [];
      var i := 0;
      while i < |fieldOrder|
        invariant 0 <= i <= |fieldOrder|
        invariant keys == DefaultsKeys(fieldOrder[..i], store, defaults)
      {
        var k := fieldOrder[i];
        assert fieldOrder[..i + 1][..i] == fieldOrder[..i];
        if k in store || k in defaults {
          keys := keys + [k];
        }
        i := i + 1;
      }
      assert fieldOrder[..i] == fieldOrder;
    }

    /** The second loop of `TypedClass.__init__`: each keyword argument that
        is not None is assigned, and the first failure stops the loop. */
    method AssignKeywords(withDefaults: seq<string>, kwargs: seq<(string, V)>) returns (e: Option<Error>)
      requires Valid() && defaultsKeys == Some(withDefaults)
      modifies this`store
      ensures Valid()
      ensures (store, e) == AssignAll(rt, annotations, defaults, withDefaults, old(store), kwargs)
    {
      var j := 0;
      while j < |kwargs|
        invariant 0 <= j <= |kwargs|
        invariant Valid()
        invariant AssignAll(rt, annotations, defaults, withDefaults, old(store), kwargs[..j]) == (store, None)
      {
        var (k, v) := kwargs[j];
        assert kwargs[..j + 1][..j] == kwargs[..j];
        if v != rt.none {
          var o := SetAttr(k, v);
          if o.Fail? {
            AssignAllStops(rt, annotations, defaults, withDefaults, old(store), kwargs, j + 1);
            return Some(o.error);
          }
        }
        j := j + 1;
      }
      assert kwargs[..j] == kwargs;
      e := None;
    }

    /** The last loop of `TypedClass.__init__`: the required TypeDef fields,
        in order, left without a value. */
    method RequiredWithoutValue() returns (missing: seq<string>)
      requires Valid()
      ensures missing == UnsetRequired(fieldOrder, annotations, store, defaults)
    {
      missing := [];
      var i := 0;
      while i < |fieldOrder|
        invariant 0 <= i <= |fieldOrder|
        invariant missing == UnsetRequired(fieldOrder[..i], annotations, store, defaults)
      {
        var k := fieldOrder[i];
        assert fieldOrder[..i + 1][..i] == fieldOrder[..i];
        if RequiredUnset(annotations[k], k, store, defaults) {
          missing := missing + [k];
        }
        i := i + 1;
      }
      assert fieldOrder[..i] == fieldOrder;
    }

    /** `TypedClass.__init__(**kwargs)`: record the keys with defaults, assign
        the keyword arguments in order, then report the required fields left
        without a value. */
    method Init(kwargs: seq<(string, V)>) returns (r: Outcome)
      requires Valid()
      modifies this`store, this`defaultsKeys
      ensures Valid()
      ensures Instance(annotations, store, defaultsKeys, r)
              == Construct(rt, fieldOrder, annotations, defaults, old(store), kwargs)
    {
      var withDefaults := KeysWithValues();
      defaultsKeys := Some(withDefaults);
      var e := AssignKeywords(withDefaults, kwargs);
      if e.Some? {
        return Fail(e.value);
      }
      defaultsKeys := None;
      var missing := RequiredWithoutValue();
      r := if missing == [] then Pass else Fail(MissingRequired(missing));
    }

    /** The loop of the Strict and Json constructors: each annotation in
        declaration order rewritten, up to the first rewrite that raises. */
    method RewriteEach(variant: Variant) returns (specs: map<string, Annotation<V>>, err: Option<Error>)
      requires Valid()
      ensures (specs, err) == RewritePass(rt, variant, annotations, fieldOrder)
    {
      var step := RewriteStep(rt, variant);
      specs, err := annotations, None;
      var i := 0;
      while i < |fieldOrder|
        invariant 0 <= i <= |fieldOrder|
        invariant RewriteLoop(step, annotations, fieldOrder[..i]) == (specs, None)
      {
        var k := fieldOrder[i];
        var d := step(specs[k]);
        RewriteLoopNext(step, annotations, fieldOrder, i, specs);
        if d.Err? {
          RewriteLoopStops(step, annotations, fieldOrder, i + 1);
          return specs, Some(d.error);
        }
        specs := specs[k := Spec(d.value)];
        i := i + 1;
      }
      assert fieldOrder[..i] == fieldOrder;
    }

    /** The Strict and Json constructors' rewrite of the annotations in place;
        keys already rewritten stay rewritten when a later one raises. */
    method RewriteAnnotations(variant: Variant) returns (r: Outcome)
      requires Valid()
      modifies this`annotations
      ensures Valid()
      ensures var pass := RewritePass(rt, variant, old(annotations), fieldOrder);
              annotations == pass.0 && r == if pass.1.Some? then Fail(pass.1.value) else Pass
    {
      var specs, err := RewriteEach(variant);
      annotations := specs;
      r := if err.Some? then Fail(err.value) else Pass;
    }

    /** `TypedClassStrict.__init__(**kwargs)`. */
    method InitStrict(kwargs: seq<(string, V)>) returns (r: Outcome)
      requires Valid()
      modifies this`annotations, this`store, this`defaultsKeys
      ensures Valid()
      ensures Instance(annotations, store, defaultsKeys, r)
              == ConstructStrict(rt, fieldOrder, old(annotations), defaults, old(store), old(defaultsKeys), kwargs)
    {
      r := RewriteAnnotations(Strict);
      if r.Pass? {
        r := Init(kwargs);
      }
    }

    /** `TypedClassJson.__init__(input_json_obj)`: the entries of a copy of
        the mapping become the keyword arguments. */
    method InitJson(json: seq<(string, V)>) returns (r: Outcome)
      requires Valid()
      modifies this`annotations, this`store, this`defaultsKeys
      ensures Valid()
      ensures Instance(annotations, store, defaultsKeys, r)
              == ConstructJson(rt, fieldOrder, old(annotations), defaults, old(store), old(defaultsKeys), json)
    {
      var entries := json;
      r := RewriteAnnotations(Json);
      if r.Pass? {
        r := InitStrict(entries);
      }
    }

    /** `attributes`. */
    method Attributes() returns (m: map<string, V>)
      requires Valid()
      ensures m == AttributesView(annotations, store, defaults)
    {
      m := map[];
      var i := 0;
      while i < |fieldOrder|
        invariant 0 <= i <= |fieldOrder|
        invariant forall k :: k in m <==> k in fieldOrder[..i] && (k in store || k in defaults)
        invariant forall k :: k in m ==> m[k] == if k in store then store[k] else defaults[k]
      {
        var k := fieldOrder[i];
        assert fieldOrder[..i + 1] == fieldOrder[..i] + [k];
        if k in store {
          m := m[k := store[k]];
        } else if k in defaults {
          m := m[k := defaults[k]];
        }
        i := i + 1;
      }
      assert fieldOrder[..i] == fieldOrder;
      SameEntries(m, AttributesView(annotations, store, defaults));
    }

    /** `dict`. */
    method Dict() returns (m: map<string, V>)
      requires Valid()
      ensures m == DictView(rt, AttributesView(annotations, store, defaults))
    {
      var attrs := Attributes();
      m := map[];
      var i := 0;
      while i < |fieldOrder|
        invariant 0 <= i <= |fieldOrder|
        invariant forall k :: k in m <==> k in fieldOrder[..i] && k in attrs
        invariant forall k :: k in m ==> m[k] == Flatten(rt, attrs[k])
      {
        var k := fieldOrder[i];
        assert fieldOrder[..i + 1] == fieldOrder[..i] + [k];
        if k in attrs {
          match rt.attributesOf(attrs[k])
          case Some(nested) => m := m[k := rt.mkDict(nested)];
          case None => m := m[k := attrs[k]];
        }
        i := i + 1;
      }
      assert fieldOrder[..i] == fieldOrder;
      assert forall k :: k in attrs ==> k in annotations;
      SameEntries(m, DictView(rt, attrs));
    }
  }
}
