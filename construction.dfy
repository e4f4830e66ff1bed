/** What the base constructor `TypedClass.__init__(**kwargs)` computes: the
    keys with class defaults, the keyword assignments in order, and the one
    aggregated error for required fields left without a value. */
module Construction {
  import opened Python
  import opened Errors
  import opened TypeDefs
  import opened Assignment

  /** Every listed key is declared. */
  predicate InDomain<V>(order: seq<string>, annotations: map<string, Annotation<V>>) {
    forall i :: 0 <= i < |order| ==> order[i] in annotations
  }

  /** Each key occurs once. */
  ghost predicate Distinct(keys: seq<string>) {
    forall i, j :: 0 <= i < j < |keys| ==> keys[i] != keys[j]
  }

  /** `order` lists each key of `keys` exactly once, as a dict's keys are listed. */
  ghost predicate ListsOnce(order: seq<string>, keys: set<string>) {
    && (forall i :: 0 <= i < |order| ==> order[i] in keys)
    && (forall k :: k in keys ==> k in order)
    && Distinct(order)
  }

  /** `order` lists each declared key exactly once. */
  ghost predicate Declares<V>(order: seq<string>, annotations: map<string, Annotation<V>>) {
    ListsOnce(order, annotations.Keys)
  }

  /** No key occurs twice among keyword arguments or the entries of a dict. */
  ghost predicate DistinctKeys<V>(kwargs: seq<(string, V)>) {
    forall i, j :: 0 <= i < j < |kwargs| ==> kwargs[i].0 != kwargs[j].0
  }

  /** The declared keys, in order, that already resolve to a value (`hasattr`). */
  function DefaultsKeys<V>(order: seq<string>, store: map<string, V>, defaults: map<string, V>): (r: seq<string>)
    ensures forall k :: k in r <==> k in order && (k in store || k in defaults)
    decreases |order|
  {
    if order == [] then []
    else
      var k := order[|order| - 1];
      assert order == order[..|order| - 1] + [k];
      DefaultsKeys(order[..|order| - 1], store, defaults) + (if k in store || k in defaults then [k] else [])
  }

  /** One keyword argument: a None value is skipped, any other is assigned. */
  function AssignOne<V(==)>(rt: Runtime<V>, annotations: map<string, Annotation<V>>, defaults: map<string, V>,
                            withDefaults: seq<string>, store: map<string, V>, kv: (string, V))
    : (map<string, V>, Option<Error>)
  {
    if kv.1 == rt.none then (store, None)
    else match Validate(rt, annotations, store, defaults, Some(withDefaults), kv.0, kv.1)
      case Err(e) => (store, Some(e))
      case Ok(v) => (store[kv.0 := v], None)
  }

  /** The keyword arguments assigned in order; the first error stops the loop.
      No value is removed, and only declared keys are added. */
  function AssignAll<V(==)>(rt: Runtime<V>, annotations: map<string, Annotation<V>>, defaults: map<string, V>,
                            withDefaults: seq<string>, store: map<string, V>, kwargs: seq<(string, V)>)
    : (s: (map<string, V>, Option<Error>))
    ensures store.Keys <= s.0.Keys <= store.Keys + annotations.Keys
    ensures s.1.Some? ==> s.1.value.RaisedByAssignment()
    decreases |kwargs|
  {
    if kwargs == [] then (store, None)
    else
      var prev := AssignAll(rt, annotations, defaults, withDefaults, store, kwargs[..|kwargs| - 1]);
      if prev.1.Some? then prev
      else AssignOne(rt, annotations, defaults, withDefaults, prev.0, kwargs[|kwargs| - 1])
  }

  /** A TypeDef field with `required` set that has neither an instance value nor a default. */
  predicate RequiredUnset<V>(a: Annotation<V>, key: string, store: map<string, V>, defaults: map<string, V>) {
    a.Spec? && IsTrue(a.d.required) && key !in store && key !in defaults
  }

  /** The keys, in declaration order, of the required fields left without a value. */
  function UnsetRequired<V>(order: seq<string>, annotations: map<string, Annotation<V>>,
                            store: map<string, V>, defaults: map<string, V>): (r: seq<string>)
    requires InDomain(order, annotations)
    ensures forall k :: k in r <==> k in order && k in annotations && RequiredUnset(annotations[k], k, store, defaults)
    decreases |order|
  {
    if order == [] then []
    else
      var k := order[|order| - 1];
      assert order == order[..|order| - 1] + [k];
      UnsetRequired(order[..|order| - 1], annotations, store, defaults)
        + (if RequiredUnset(annotations[k], k, store, defaults) then [k] else [])
  }

  /** The state an instance is left in by a constructor, and how it ended. */
  datatype Instance<V> = Instance(
    annotations: map<string, Annotation<V>>,
    store: map<string, V>,
    defaultsKeys: Option<seq<string>>,
    outcome: Outcome)

  /** `TypedClass.__init__(**kwargs)` run on an instance whose values are `store`. */
  function Construct<V(==)>(rt: Runtime<V>, order: seq<string>, annotations: map<string, Annotation<V>>,
                            defaults: map<string, V>, store: map<string, V>, kwargs: seq<(string, V)>): Instance<V>
    requires InDomain(order, annotations)
  {
    var withDefaults := DefaultsKeys(order, store, defaults);
    var (s, e) := AssignAll(rt, annotations, defaults, withDefaults, store, kwargs);
    if e.Some? then Instance(annotations, s, Some(withDefaults), Fail(e.value))
    else
      var missing := UnsetRequired(order, annotations, s, defaults);
      Instance(annotations, s, None, if missing == [] then Pass else Fail(MissingRequired(missing)))
  }

  /** Once an assignment has failed, the remaining keyword arguments are not looked at. */
  lemma {:induction false} AssignAllStops<V>(rt: Runtime<V>, annotations: map<string, Annotation<V>>,
                                             defaults: map<string, V>, withDefaults: seq<string>,
                                             store: map<string, V>, kwargs: seq<(string, V)>, n: nat)
    requires n <= |kwargs|
    requires AssignAll(rt, annotations, defaults, withDefaults, store, kwargs[..n]).1.Some?
    ensures AssignAll(rt, annotations, defaults, withDefaults, store, kwargs)
            == AssignAll(rt, annotations, defaults, withDefaults, store, kwargs[..n])
    decreases |kwargs| - n
  {
    if n < |kwargs| {
      var m := |kwargs| - 1;
      assert kwargs[..m][..n] == kwargs[..n];
      AssignAllStops(rt, annotations, defaults, withDefaults, store, kwargs[..m], n);
    } else {
      assert kwargs[..n] == kwargs;
    }
  }

  /** The keyword arguments whose value is not None, in order. */
  function WithoutNone<V(==)>(rt: Runtime<V>, kwargs: seq<(string, V)>): (r: seq<(string, V)>)
    decreases |kwargs|
  {
    if kwargs == [] then []
    else
      var last := kwargs[|kwargs| - 1];
      WithoutNone(rt, kwargs[..|kwargs| - 1]) + (if last.1 == rt.none then [] else [last])
  }

  /** Keyword arguments equal to None are skipped: dropping them changes nothing. */
  lemma {:induction false} AssignAllSkipsNone<V>(rt: Runtime<V>, annotations: map<string, Annotation<V>>,
                                                 defaults: map<string, V>, withDefaults: seq<string>,
                                                 store: map<string, V>, kwargs: seq<(string, V)>)
    ensures AssignAll(rt, annotations, defaults, withDefaults, store, kwargs)
            == AssignAll(rt, annotations, defaults, withDefaults, store, WithoutNone(rt, kwargs))
    decreases |kwargs|
  {
    if kwargs != [] {
      var m := |kwargs| - 1;
      var last := kwargs[m];
      var pre := WithoutNone(rt, kwargs[..m]);
      AssignAllSkipsNone(rt, annotations, defaults, withDefaults, store, kwargs[..m]);
      if last.1 != rt.none {
        var w := WithoutNone(rt, kwargs);
        assert w == pre + [last];
        assert w[..|w| - 1] == pre;
      } else {
        assert WithoutNone(rt, kwargs) == pre + [] == pre;
      }
    }
  }

  /** A successful assignment of a non-None value commits its conversion
      under a declared key; a None value leaves the values as they are. */
  lemma AssignOneCommits<V>(rt: Runtime<V>, annotations: map<string, Annotation<V>>, defaults: map<string, V>,
                            withDefaults: seq<string>, store: map<string, V>, kv: (string, V))
    requires AssignOne(rt, annotations, defaults, withDefaults, store, kv).1 == None
    ensures var s := AssignOne(rt, annotations, defaults, withDefaults, store, kv).0;
            && (kv.1 == rt.none ==> s == store)
            && (kv.1 != rt.none ==>
                  && kv.0 in annotations
                  && Conversion(rt, kv.0, annotations[kv.0], kv.1).Ok?
                  && s == store[kv.0 := Conversion(rt, kv.0, annotations[kv.0], kv.1).value])
  {
  }

  /** When every assignment succeeds, the keys holding a value are the old
      ones and the assigned ones, and a value no argument assigns is kept. */
  lemma {:induction false} AssignAllKeys<V>(rt: Runtime<V>, annotations: map<string, Annotation<V>>,
                                            defaults: map<string, V>, withDefaults: seq<string>,
                                            store: map<string, V>, kwargs: seq<(string, V)>)
    requires AssignAll(rt, annotations, defaults, withDefaults, store, kwargs).1 == None
    ensures var s := AssignAll(rt, annotations, defaults, withDefaults, store, kwargs).0;
            && (forall k :: k in s <==> k in store || Assigns(rt, kwargs, k))
            && (forall k :: k in store && !Assigns(rt, kwargs, k) ==> s[k] == store[k])
    decreases |kwargs|
  {
    if kwargs != [] {
      var m := |kwargs| - 1;
      var pre := kwargs[..m];
      var (k, v) := kwargs[m];
      AssignAllKeys(rt, annotations, defaults, withDefaults, store, pre);
      var p := AssignAll(rt, annotations, defaults, withDefaults, store, pre);
      var s := AssignAll(rt, annotations, defaults, withDefaults, store, kwargs).0;
      AssignOneCommits(rt, annotations, defaults, withDefaults, p.0, kwargs[m]);
      forall q ensures Assigns(rt, kwargs, q) <==> Assigns(rt, pre, q) || (q == k && v != rt.none) {
        AssignsLast(rt, kwargs, q);
      }
      forall q | q in store && !Assigns(rt, kwargs, q) ensures s[q] == store[q] {
        assert q != k || v == rt.none;
      }
    }
  }

  /** When every assignment succeeds, each non-None keyword argument has been
      converted and committed under its key. */
  lemma {:induction false} AssignAllConverts<V>(rt: Runtime<V>, annotations: map<string, Annotation<V>>,
                                                defaults: map<string, V>, withDefaults: seq<string>,
                                                store: map<string, V>, kwargs: seq<(string, V)>)
    requires DistinctKeys(kwargs)
    requires AssignAll(rt, annotations, defaults, withDefaults, store, kwargs).1 == None
    ensures var s := AssignAll(rt, annotations, defaults, withDefaults, store, kwargs).0;
            forall i :: 0 <= i < |kwargs| && kwargs[i].1 != rt.none ==>
              && kwargs[i].0 in annotations && kwargs[i].0 in s
              && Conversion(rt, kwargs[i].0, annotations[kwargs[i].0], kwargs[i].1) == Ok(s[kwargs[i].0])
    decreases |kwargs|
  {
    if kwargs != [] {
      var m := |kwargs| - 1;
      var pre := kwargs[..m];
      assert DistinctKeys(pre);
      AssignAllConverts(rt, annotations, defaults, withDefaults, store, pre);
      var p := AssignAll(rt, annotations, defaults, withDefaults, store, pre);
      var s := AssignAll(rt, annotations, defaults, withDefaults, store, kwargs).0;
      AssignOneCommits(rt, annotations, defaults, withDefaults, p.0, kwargs[m]);
      forall i | 0 <= i < |kwargs| && kwargs[i].1 != rt.none
        ensures && kwargs[i].0 in annotations && kwargs[i].0 in s
                && Conversion(rt, kwargs[i].0, annotations[kwargs[i].0], kwargs[i].1) == Ok(s[kwargs[i].0])
      {
        if i < m {
          assert pre[i] == kwargs[i] && kwargs[i].0 != kwargs[m].0;
        }
      }
    }
  }

  /** When every assignment succeeds, each non-None keyword argument has been
      converted and committed under its key, and every other value is kept. */
  lemma AssignAllCommits<V>(rt: Runtime<V>, annotations: map<string, Annotation<V>>,
                            defaults: map<string, V>, withDefaults: seq<string>,
                            store: map<string, V>, kwargs: seq<(string, V)>)
    requires DistinctKeys(kwargs)
    requires AssignAll(rt, annotations, defaults, withDefaults, store, kwargs).1 == None
    ensures var s := AssignAll(rt, annotations, defaults, withDefaults, store, kwargs).0;
            && (forall i :: 0 <= i < |kwargs| && kwargs[i].1 != rt.none ==>
                  && kwargs[i].0 in annotations && kwargs[i].0 in s
                  && Conversion(rt, kwargs[i].0, annotations[kwargs[i].0], kwargs[i].1) == Ok(s[kwargs[i].0]))
            && (forall k :: k in s <==> k in store || Assigns(rt, kwargs, k))
            && (forall k :: k in store && !Assigns(rt, kwargs, k) ==> s[k] == store[k])
  {
    AssignAllConverts(rt, annotations, defaults, withDefaults, store, kwargs);
    AssignAllKeys(rt, annotations, defaults, withDefaults, store, kwargs);
  }

  /** Some keyword argument assigns a non-None value to `k`. */
  ghost predicate Assigns<V>(rt: Runtime<V>, kwargs: seq<(string, V)>, k: string) {
    exists i :: 0 <= i < |kwargs| && kwargs[i].0 == k && kwargs[i].1 != rt.none
  }

  /** The last keyword argument assigns its key, or an earlier one does. */
  lemma AssignsLast<V>(rt: Runtime<V>, kwargs: seq<(string, V)>, q: string)
    requires kwargs != []
    ensures var m := |kwargs| - 1;
            Assigns(rt, kwargs, q) <==> Assigns(rt, kwargs[..m], q) || (q == kwargs[m].0 && kwargs[m].1 != rt.none)
  {
    var m := |kwargs| - 1;
    if Assigns(rt, kwargs, q) {
      var i :| 0 <= i < |kwargs| && kwargs[i].0 == q && kwargs[i].1 != rt.none;
      if i < m { assert kwargs[..m][i] == kwargs[i]; }
    }
    if Assigns(rt, kwargs[..m], q) {
      var i :| 0 <= i < m && kwargs[..m][i].0 == q && kwargs[..m][i].1 != rt.none;
      assert kwargs[i] == kwargs[..m][i];
    }
  }

  /** The constructor's result in terms of its two phases. */
  lemma ConstructPhases<V>(rt: Runtime<V>, order: seq<string>, annotations: map<string, Annotation<V>>,
                           defaults: map<string, V>, store: map<string, V>, kwargs: seq<(string, V)>)
    requires InDomain(order, annotations)
    ensures var inst := Construct(rt, order, annotations, defaults, store, kwargs);
            var withDefaults := DefaultsKeys(order, store, defaults);
            var run := AssignAll(rt, annotations, defaults, withDefaults, store, kwargs);
            && inst.annotations == annotations && inst.store == run.0
            && (run.1.Some? ==> inst.defaultsKeys == Some(withDefaults) && inst.outcome == Fail(run.1.value))
            && (run.1 == None ==>
                  var missing := UnsetRequired(order, annotations, run.0, defaults);
                  inst.defaultsKeys == None
                  && inst.outcome == if missing == [] then Pass else Fail(MissingRequired(missing)))
  {
  }

  /** The constructor completes exactly when every assignment succeeds and every
      required field ends with a value. */
  lemma ConstructCompletes<V>(rt: Runtime<V>, order: seq<string>, annotations: map<string, Annotation<V>>,
                              defaults: map<string, V>, store: map<string, V>, kwargs: seq<(string, V)>)
    requires Declares(order, annotations)
    ensures var inst := Construct(rt, order, annotations, defaults, store, kwargs);
            var run := AssignAll(rt, annotations, defaults, DefaultsKeys(order, store, defaults), store, kwargs);
            inst.outcome.Pass? <==>
              run.1 == None && forall k :: k in annotations ==> !RequiredUnset(annotations[k], k, inst.store, defaults)
  {
    ConstructPhases(rt, order, annotations, defaults, store, kwargs);
    var inst := Construct(rt, order, annotations, defaults, store, kwargs);
    var missing := UnsetRequired(order, annotations, inst.store, defaults);
    if missing != [] {
      assert missing[0] in missing;
    }
  }

  /** The missing-fields error is raised after every assignment succeeded, and
      lists exactly the required fields left without a value; so a bare-typed
      field is never among them. */
  lemma ConstructReportsMissing<V>(rt: Runtime<V>, order: seq<string>, annotations: map<string, Annotation<V>>,
                                   defaults: map<string, V>, store: map<string, V>, kwargs: seq<(string, V)>)
    requires Declares(order, annotations)
    ensures var inst := Construct(rt, order, annotations, defaults, store, kwargs);
            inst.outcome.Fail? && inst.outcome.error.MissingRequired? ==>
              && inst.defaultsKeys == None
              && inst.outcome.error.Kind() == AttributeError
              && (forall k :: k in inst.outcome.error.keys <==>
                    k in annotations && RequiredUnset(annotations[k], k, inst.store, defaults))
              && (forall k :: k in annotations && annotations[k].Bare? ==> k !in inst.outcome.error.keys)
  {
    ConstructPhases(rt, order, annotations, defaults, store, kwargs);
  }

  /** Only keys with a non-None keyword argument gain a value. */
  lemma {:induction false} AssignAllOnlyAssigned<V>(rt: Runtime<V>, annotations: map<string, Annotation<V>>,
                                                    defaults: map<string, V>, withDefaults: seq<string>,
                                                    store: map<string, V>, kwargs: seq<(string, V)>)
    ensures var s := AssignAll(rt, annotations, defaults, withDefaults, store, kwargs).0;
            forall k :: k in s ==> k in store || Assigns(rt, kwargs, k)
    decreases |kwargs|
  {
    if kwargs != [] {
      var m := |kwargs| - 1;
      AssignAllOnlyAssigned(rt, annotations, defaults, withDefaults, store, kwargs[..m]);
      forall k | Assigns(rt, kwargs[..m], k) ensures Assigns(rt, kwargs, k) {
        var i :| 0 <= i < m && kwargs[..m][i].0 == k && kwargs[..m][i].1 != rt.none;
        assert kwargs[i] == kwargs[..m][i];
      }
    }
  }

  /** A required field that starts without a value and is given none makes the
      constructor fail: with the missing-fields error naming it, unless an
      assignment raised first. */
  lemma ConstructNeedsField<V>(rt: Runtime<V>, order: seq<string>, annotations: map<string, Annotation<V>>,
                               defaults: map<string, V>, store: map<string, V>, kwargs: seq<(string, V)>,
                               key: string)
    requires Declares(order, annotations)
    requires key in annotations && RequiredUnset(annotations[key], key, store, defaults)
    requires !Assigns(rt, kwargs, key)
    ensures var inst := Construct(rt, order, annotations, defaults, store, kwargs);
            && inst.outcome.Fail?
            && (inst.outcome.error.MissingRequired? ==> key in inst.outcome.error.keys)
            && (!inst.outcome.error.MissingRequired? ==> inst.outcome.error.RaisedByAssignment())
  {
    ConstructPhases(rt, order, annotations, defaults, store, kwargs);
    var withDefaults := DefaultsKeys(order, store, defaults);
    AssignAllOnlyAssigned(rt, annotations, defaults, withDefaults, store, kwargs);
    var run := AssignAll(rt, annotations, defaults, withDefaults, store, kwargs);
    if run.1 == None {
      assert key !in run.0;
      assert key in UnsetRequired(order, annotations, run.0, defaults);
    }
  }
}
