/** The read-only views of an instance: `attributes` (every declared field
    that resolves to a value) and `dict` (the same, with nested typed
    objects replaced by their own `attributes`). */
module Views {
  import opened Python
  import opened Errors
  import opened TypeDefs
  import opened Assignment
  import opened Construction
  import opened Variants

  /** `attributes`: each declared key that has an instance value or a class
      default, with the instance value taking precedence. */
  function AttributesView<V>(annotations: map<string, Annotation<V>>, store: map<string, V>,
                             defaults: map<string, V>): map<string, V>
  {
    map k | k in annotations && (k in store || k in defaults) :: if k in store then store[k] else defaults[k]
  }

  /** One `dict` entry: an object that has `attributes` is replaced by that
      mapping, any other value is kept. */
  function Flatten<V>(rt: Runtime<V>, v: V): V {
    match rt.attributesOf(v)
    case Some(m) => rt.mkDict(m)
    case None => v
  }

  /** `dict`, from the `attributes` mapping. */
  function DictView<V>(rt: Runtime<V>, attrs: map<string, V>): map<string, V> {
    map k | k in attrs :: Flatten(rt, attrs[k])
  }

  /** Two maps with the same keys and the same value at each key are equal. */
  lemma SameEntries<V>(m: map<string, V>, n: map<string, V>)
    requires forall k :: k in m <==> k in n
    requires forall k :: k in m ==> m[k] == n[k]
    ensures m == n
  {
  }

  /** The dict whose items are `kv`, a later entry winning over an earlier one. */
  function ToMap<V>(kv: seq<(string, V)>): map<string, V>
    decreases |kv|
  {
    if kv == [] then map[]
    else ToMap(kv[..|kv| - 1])[kv[|kv| - 1].0 := kv[|kv| - 1].1]
  }

  /** With distinct keys, the dict built from `kv` holds exactly its entries. */
  lemma {:induction false} ToMapEntries<V>(kv: seq<(string, V)>)
    requires DistinctKeys(kv)
    ensures forall k :: k in ToMap(kv) <==> exists i :: 0 <= i < |kv| && kv[i].0 == k
    ensures forall i :: 0 <= i < |kv| ==> kv[i].0 in ToMap(kv) && ToMap(kv)[kv[i].0] == kv[i].1
    decreases |kv|
  {
    if kv != [] {
      var m := |kv| - 1;
      var pre := kv[..m];
      assert DistinctKeys(pre) by {
        forall i, j | 0 <= i < j < m ensures pre[i].0 != pre[j].0 { assert pre[i] == kv[i] && pre[j] == kv[j]; }
      }
      ToMapEntries(pre);
      forall i | 0 <= i < m ensures pre[i] == kv[i] && kv[i].0 != kv[m].0 { }
      forall k | k in ToMap(kv) ensures exists i :: 0 <= i < |kv| && kv[i].0 == k {
        if k != kv[m].0 {
          var i :| 0 <= i < m && pre[i].0 == k;
          assert kv[i].0 == k;
        }
      }
    }
  }

  /** Every converted field value flattens back to the raw value it was made
      from: the field's class turns a raw dict into a typed object whose
      `attributes` are that dict again. */
  ghost predicate FlattensBack<V>(rt: Runtime<V>, annotations: map<string, Annotation<V>>, json: seq<(string, V)>) {
    forall i :: 0 <= i < |json| && json[i].0 in annotations ==>
      var c := Conversion(rt, json[i].0, annotations[json[i].0], json[i].1);
      c.Ok? ==> Flatten(rt, c.value) == json[i].1
  }

  /** `dict` of a store holding exactly the converted entries of `json`. */
  lemma DictOfCommitted<V>(rt: Runtime<V>, annotations: map<string, Annotation<V>>, defaults: map<string, V>,
                           s: map<string, V>, json: seq<(string, V)>)
    requires DistinctKeys(json)
    requires forall i :: 0 <= i < |json| ==>
               && json[i].0 in annotations && json[i].0 in s
               && Conversion(rt, json[i].0, annotations[json[i].0], json[i].1) == Ok(s[json[i].0])
    requires forall k :: k in s ==> exists i :: 0 <= i < |json| && json[i].0 == k
    requires forall k :: k in annotations && k in defaults ==> k in s
    requires FlattensBack(rt, annotations, json)
    ensures DictView(rt, AttributesView(annotations, s, defaults)) == ToMap(json)
  {
    ToMapEntries(json);
    var attrs := AttributesView(annotations, s, defaults);
    var m := ToMap(json);
    forall k | k in s ensures k in annotations && k in m && attrs[k] == s[k] {
      var i :| 0 <= i < |json| && json[i].0 == k;
    }
    SameEntries(attrs, s);
    var dict := DictView(rt, s);
    forall k | k in m ensures k in dict && dict[k] == m[k] {
      var i :| 0 <= i < |json| && json[i].0 == k;
      assert Flatten(rt, s[k]) == json[i].1;
    }
    SameEntries(dict, m);
  }

  /** The round trip: constructing a fresh instance from a dict with no None
      values and then reading `dict` gives the dict back, provided each
      field's value flattens back and every field with a class default is
      given a value. */
  lemma ConstructThenDict<V>(rt: Runtime<V>, order: seq<string>, annotations: map<string, Annotation<V>>,
                             defaults: map<string, V>, json: seq<(string, V)>)
    requires Declares(order, annotations)
    requires DistinctKeys(json)
    requires forall i :: 0 <= i < |json| ==> json[i].1 != rt.none
    requires forall k :: k in annotations && k in defaults ==> Assigns(rt, json, k)
    requires FlattensBack(rt, annotations, json)
    ensures var inst := Construct(rt, order, annotations, defaults, map[], json);
            inst.outcome.Pass? ==> DictView(rt, AttributesView(annotations, inst.store, defaults)) == ToMap(json)
  {
    ConstructPhases(rt, order, annotations, defaults, map[], json);
    var withDefaults := DefaultsKeys(order, map[], defaults);
    var run := AssignAll(rt, annotations, defaults, withDefaults, map[], json);
    if run.1 == None {
      var s := run.0;
      AssignAllCommits(rt, annotations, defaults, withDefaults, map[], json);
      assert forall i :: 0 <= i < |json| ==>
               && json[i].0 in annotations && json[i].0 in s
               && Conversion(rt, json[i].0, annotations[json[i].0], json[i].1) == Ok(s[json[i].0]);
      forall k | k in s ensures exists i :: 0 <= i < |json| && json[i].0 == k {
        assert Assigns(rt, json, k);
      }
      DictOfCommitted(rt, annotations, defaults, s, json);
    }
  }

  /** Each field's conversion gives back the value it is handed (as `str`
      does on a string and `bool` on a bool). */
  ghost predicate ConvertsToItself<V>(rt: Runtime<V>, annotations: map<string, Annotation<V>>,
                                      json: seq<(string, V)>)
  {
    forall i :: 0 <= i < |json| && json[i].0 in annotations ==>
      var c := Conversion(rt, json[i].0, annotations[json[i].0], json[i].1);
      c.Ok? ==> c.value == json[i].1
  }

  /** A completed construction from a dict whose values convert to
      themselves has that dict as its `attributes`: what a nested class must
      satisfy for the `dict` round trip of its owner. */
  lemma ConstructThenAttributes<V>(rt: Runtime<V>, order: seq<string>, annotations: map<string, Annotation<V>>,
                                   defaults: map<string, V>, json: seq<(string, V)>)
    requires Declares(order, annotations)
    requires DistinctKeys(json)
    requires forall i :: 0 <= i < |json| ==> json[i].1 != rt.none
    requires forall k :: k in annotations && k in defaults ==> Assigns(rt, json, k)
    requires ConvertsToItself(rt, annotations, json)
    ensures var inst := Construct(rt, order, annotations, defaults, map[], json);
            inst.outcome.Pass? ==> AttributesView(annotations, inst.store, defaults) == ToMap(json)
  {
    ConstructPhases(rt, order, annotations, defaults, map[], json);
    var withDefaults := DefaultsKeys(order, map[], defaults);
    var run := AssignAll(rt, annotations, defaults, withDefaults, map[], json);
    if run.1 == None {
      var s := run.0;
      AssignAllCommits(rt, annotations, defaults, withDefaults, map[], json);
      ToMapEntries(json);
      var m := ToMap(json);
      forall k | k in s ensures k in m && s[k] == m[k] {
        assert Assigns(rt, json, k);
        var i :| 0 <= i < |json| && json[i].0 == k && json[i].1 != rt.none;
        assert Conversion(rt, k, annotations[k], json[i].1) == Ok(s[k]);
      }
      forall k | k in m ensures k in s {
        var i :| 0 <= i < |json| && json[i].0 == k;
        assert json[i].1 != rt.none;
      }
      SameEntries(s, m);
      SameEntries(AttributesView(annotations, s, defaults), s);
    }
  }

  /** The `attributes` of a completed TypedClassJson construction are the dict
      it was built from, when each field converts its entry to itself. */
  lemma JsonAttributesRoundTrip<V>(rt: Runtime<V>, order: seq<string>, annotations: map<string, Annotation<V>>,
                                   defaults: map<string, V>, defaultsKeys: Option<seq<string>>,
                                   json: seq<(string, V)>)
    requires Declares(order, annotations)
    requires DistinctKeys(json)
    requires forall i :: 0 <= i < |json| ==> json[i].1 != rt.none
    requires forall k :: k in annotations && k in defaults ==> Assigns(rt, json, k)
    ensures var inst := ConstructJson(rt, order, annotations, defaults, map[], defaultsKeys, json);
            inst.outcome.Pass? && ConvertsToItself(rt, inst.annotations, json) ==>
              AttributesView(inst.annotations, inst.store, defaults) == ToMap(json)
  {
    var (j, e) := RewritePass(rt, Json, annotations, order);
    if e == None {
      var (s, e2) := RewritePass(rt, Strict, j, order);
      if e2 == None {
        assert s.Keys == annotations.Keys;
        var inst := Construct(rt, order, s, defaults, map[], json);
        assert ConstructJson(rt, order, annotations, defaults, map[], defaultsKeys, json) == inst;
        ConstructPhases(rt, order, s, defaults, map[], json);
        if ConvertsToItself(rt, s, json) {
          ConstructThenAttributes(rt, order, s, defaults, json);
        }
      }
    }
  }

  /** The round trip of `TypedClassJson`: whenever construction from a dict
      completes, reading `dict` gives the dict back, under the same conditions
      on the annotations the construction left in place. */
  lemma JsonRoundTrip<V>(rt: Runtime<V>, order: seq<string>, annotations: map<string, Annotation<V>>,
                         defaults: map<string, V>, defaultsKeys: Option<seq<string>>, json: seq<(string, V)>)
    requires Declares(order, annotations)
    requires DistinctKeys(json)
    requires forall i :: 0 <= i < |json| ==> json[i].1 != rt.none
    requires forall k :: k in annotations && k in defaults ==> Assigns(rt, json, k)
    ensures var inst := ConstructJson(rt, order, annotations, defaults, map[], defaultsKeys, json);
            inst.outcome.Pass? && FlattensBack(rt, inst.annotations, json) ==>
              DictView(rt, AttributesView(inst.annotations, inst.store, defaults)) == ToMap(json)
  {
    var (j, e) := RewritePass(rt, Json, annotations, order);
    if e == None {
      var (s, e2) := RewritePass(rt, Strict, j, order);
      if e2 == None {
        assert s.Keys == annotations.Keys;
        var inst := Construct(rt, order, s, defaults, map[], json);
        assert ConstructJson(rt, order, annotations, defaults, map[], defaultsKeys, json) == inst;
        ConstructPhases(rt, order, s, defaults, map[], json);
        if FlattensBack(rt, s, json) {
          ConstructThenDict(rt, order, s, defaults, json);
        }
      }
    }
  }
}
