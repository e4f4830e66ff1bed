# TypedClass in Dafny

TypedClass is a small Python engine that checks fields. A class declares annotations. Each annotation is a bare type or a `TypeDef`:

- a `TypeDef` holds a type target (`typeof`), the optional flags `required`, `immutable` and `convert`, an optional list of `choices`, and an optional predicate `validate_fn`;
- every assignment to an instance runs a fixed pipeline: unknown key, conversion, type check, immutability, choices, predicate, and only then the commit;
- the constructor assigns the keyword arguments and reports every required field left without a value in one error;
- `TypedClassStrict` first rewrites the annotations so that `required` and `immutable` default to True;
- `TypedClassJson` also defaults `convert` to True and takes its field values from one mapping;
- the `attributes` and `dict` properties are read views; `dict` flattens nested typed objects by one level.

This project models that engine and proves properties of the model.

- `python.dfy` (module `Python`) holds the Python behaviour the engine calls into but does not define, as a record `Runtime` of functions:
  - `isinstance` on one class;
  - calling a class on a value (conversion);
  - the parameter count of a predicate, and its result;
  - the `attributes` of a nested value, and building a dict.

  It also defines `isinstance` over a tuple: a left-to-right scan that stops at the first match or the first item that is not a type.
- `errors.dfy` (module `Errors`) has one error per raise site, each mapped to the exception class raised (AttributeError, TypeError or ValueError).
- `typedef.dfy` (module `TypeDefs`) has `TypeDef.__init__` as the function `NewTypeDef`. Its checks run in source order. Each constructor argument is either None, a value of the expected kind, or some other object.
- `assignment.dfy` (module `Assignment`) has the `__setattr__` pipeline as the function `Validate`.
- `construction.dfy` (module `Construction`) has `TypedClass.__init__` as the function `Construct`:
  - the keys that already hold a value or a default;
  - the keyword assignments in order;
  - the aggregated missing-fields error.
- `variants.dfy` (module `Variants`) has the Strict and Json annotation rewrites, and the Strict and Json constructors built from them.
- `views.dfy` (module `Views`) has `attributes`, `dict` and the JSON round trip.
- `typed_class.dfy` (module `TypedClasses`) has the instance as the class `TypedObject`:
  - it holds the annotations, the class defaults and the instance's own values;
  - its methods `SetAttr`, `DelAttr`, `Init`, `InitStrict`, `InitJson`, `Attributes` and `Dict` follow the source step by step, loops included;
  - each method is proved equal to the matching function above.

Field values have a generic type `V`. A field's keyword arguments, and the entries of the JSON mapping, are a sequence of key/value pairs in their dict order.

## Model

| member | source | states |
|---|---|---|
| Python.IsInstance | TypedClass/index.py:197-205 | `isinstance(value, typeof)`: a True/False verdict, or None when isinstance raises; its behaviour on tuples is stated by `TupleOfClasses` and `TupleRaises` |
| Python.InstanceOfAny | TypedClass/index.py:251-265 | the left-to-right scan of a tuple target; stated by `TupleOfClasses` and `TupleRaises` |
| Python.TupleOfClasses | TypedClass/index.py:251-265 | isinstance against a tuple of classes holds exactly when the value belongs to one of them |
| Python.TupleRaises | TypedClass/index.py:59-65 | isinstance against a tuple raises exactly when the scan reaches an item that is not a type before any match |
| TypeDefs.NewTypeDef | TypedClass/index.py:59-123 | `TypeDef.__init__` with its checks in source order; what it accepts and stores is stated by `NewTypeDefAccepts`, its error classes by `NewTypeDefErrorKinds` |
| TypeDefs.ChoicesError | TypedClass/index.py:87-92 | a rejected choice list always raises TypeError |
| TypeDefs.ChoicesErrorNone | TypedClass/index.py:87-92 | the choices are accepted exactly when every choice is an instance of `typeof` |
| TypeDefs.NewTypeDefAccepts | TypedClass/index.py:59-123 | a TypeDef is built exactly when its arguments are admissible: `typeof` usable with isinstance, the flags None or bool, choices None or a list of instances, a predicate with at most one parameter (zero is accepted). On success every argument is stored unchanged |
| TypeDefs.NewTypeDefErrorKinds | TypedClass/index.py:59-116 | the error is ValueError exactly when every earlier check passes and the predicate has more than one parameter; every other error is TypeError |
| TypeDefs.NewTypeDefWellFormed | TypedClass/index.py:118-123 | a built TypeDef is rebuilt unchanged from its own attributes |
| Assignment.Conversion | TypedClass/index.py:193-195 | the optional call `typeof(value)`; stated by `ConvertedValueCommitted` and `ConversionRaisesFirst` |
| Assignment.TypeCheckError | TypedClass/index.py:197-205 | the type check on the converted value; stated by `TypeCheckFirst` |
| Assignment.ImmutabilityError | TypedClass/index.py:207-229 | the immutability check; stated by `WriteOnce` and `DefaultReplacedOnlyDuringConstruction` |
| Assignment.ChoiceError | TypedClass/index.py:231-237 | the choices check; stated by `ChoicesBeforePredicate` |
| Assignment.PredicateError | TypedClass/index.py:239-250 | the predicate check; stated by `PredicateVerdict` |
| Assignment.Validate | TypedClass/index.py:181-265 | an undeclared key raises AttributeError; a value is accepted exactly when it converts, passes the type check and, for a TypeDef, passes the immutability, choices and predicate checks; the converted value is the one returned; every error is an assignment error |
| Assignment.TypeCheckFirst | TypedClass/index.py:193-205 | the type check runs on the converted value, and its failure is raised whatever the later checks would say |
| Assignment.ConversionRaisesFirst | TypedClass/index.py:193-197 | with `convert` on and a type that is not a single class, calling the tuple raises TypeError before the type check, whatever the value |
| Assignment.ConvertedValueCommitted | TypedClass/index.py:193-205 | with conversion on and a class target, the accepted value is the class applied to the input, and it is an instance of that class |
| Assignment.WriteOnce | TypedClass/index.py:207-211 | an immutable field that holds an instance value rejects every later assignment, even of an equal value |
| Assignment.DefaultReplacedOnlyDuringConstruction | TypedClass/index.py:212-229 | for a value that passes the type check, an immutable field with a class default cannot be assigned outside construction; during construction it is accepted exactly when its choices and predicate accept the value |
| Assignment.ChoicesBeforePredicate | TypedClass/index.py:231-237 | a value outside the choices raises the choices error before the predicate is asked |
| Assignment.PredicateVerdict | TypedClass/index.py:239-250 | a non-bool predicate result raises its own TypeError; False raises the failed-predicate error; only True accepts the value |
| Construction.DefaultsKeys | TypedClass/index.py:148-152 | the recorded keys are exactly the declared keys that already hold a value or a default |
| Construction.AssignOne | TypedClass/index.py:155-156 | one keyword argument: None is skipped, any other value goes through `__setattr__`; stated by `AssignAllSkipsNone` and `AssignAllCommits` |
| Construction.AssignAll | TypedClass/index.py:154-156 | the keyword loop never removes a value and adds only declared keys; the error that stops it is an assignment error |
| Construction.AssignAllStops | TypedClass/index.py:154-156 | once an assignment fails, the remaining keyword arguments are not looked at |
| Construction.AssignAllSkipsNone | TypedClass/index.py:154-156 | keyword values equal to None are skipped: dropping them gives the same result |
| Construction.AssignAllKeys | TypedClass/index.py:154-156 | when every assignment succeeds, the keys holding a value are exactly the old ones and those given a non-None value, and every value no argument assigns is kept |
| Construction.AssignAllConverts | TypedClass/index.py:154-156 | when every assignment succeeds, each non-None keyword argument is stored under its declared key as its converted value |
| Construction.AssignAllCommits | TypedClass/index.py:154-156 | when every assignment succeeds, each non-None keyword argument is committed under its key as its converted value, and every other stored value is kept |
| Construction.AssignAllOnlyAssigned | TypedClass/index.py:154-156 | only keys given a non-None value gain a value |
| Construction.UnsetRequired | TypedClass/index.py:160-167 | the collected keys are exactly the TypeDef fields with `required` true and neither an instance value nor a default |
| Construction.Construct | TypedClass/index.py:147-174 | `TypedClass.__init__(**kwargs)`; stated by `ConstructPhases`, `ConstructCompletes` and `ConstructReportsMissing` |
| Construction.ConstructPhases | TypedClass/index.py:147-174 | the constructor's result: a failed assignment leaves the recorded keys in place and raises its own error; otherwise the recorded keys are dropped and the missing-fields check decides |
| Construction.ConstructCompletes | TypedClass/index.py:160-174 | construction completes exactly when every assignment succeeds and no required field is left without a value |
| Construction.ConstructReportsMissing | TypedClass/index.py:160-174 | the missing-fields error is an AttributeError raised after construction, listing exactly the required fields without a value and never a bare-typed field |
| Construction.ConstructNeedsField | TypedClass/index.py:160-174 | a required field that starts without a value and is given none makes construction fail; the missing-fields error names it unless an assignment raised first |
| Variants.StrictField | TypedClass/index.py:331-356 | the TypeDef the Strict loop builds for one annotation; stated by `StrictFieldEffect` |
| Variants.JsonField | TypedClass/index.py:370-390 | the TypeDef the Json loop builds for one annotation; stated by `JsonFieldEffect` |
| Variants.RewritePass | TypedClass/index.py:330-356 | the Strict or Json loop over the annotations; stated by the `RewriteLoop` lemmas, `RewritePassIdempotent` and `RewritePassFailure` |
| Variants.RewriteLoop | TypedClass/index.py:330-356 | the rewrite loop keeps the set of declared keys |
| Variants.StrictFieldEffect | TypedClass/index.py:330-356 | the Strict rewrite sets unset `required`/`immutable` to True and copies every other attribute; a bare type becomes a required, immutable TypeDef; it fails only on a bare annotation that is not a type |
| Variants.JsonFieldEffect | TypedClass/index.py:369-390 | the Json rewrite sets an unset `convert` to True and copies every other attribute; a bare type becomes required, immutable and converting |
| Variants.JsonThenStrict | TypedClass/index.py:367-391 | after the Json rewrite and the Strict rewrite it triggers, `required`, `immutable` and `convert` all default to True |
| Variants.ReflaggedAccepted | TypedClass/index.py:343-350 | rebuilding a valid TypeDef with new bool flags succeeds and changes only those flags |
| Variants.RewriteIdempotent | TypedClass/index.py:330-356 | rewriting a field twice gives what rewriting it once gives |
| Variants.RewriteWellFormed | TypedClass/index.py:330-356 | a rewritten annotation is a TypeDef the TypeDef constructor rebuilds unchanged |
| Variants.RewriteLoopResult | TypedClass/index.py:330-356 | a loop that completes replaces every listed annotation by its rewrite and keeps every other one |
| Variants.RewriteLoopFixed | TypedClass/index.py:330-356 | a loop over annotations that are already their own rewrite changes nothing |
| Variants.RewriteLoopStops | TypedClass/index.py:330-356 | once a rewrite fails, the remaining keys are not looked at |
| Variants.RewriteLoopFailure | TypedClass/index.py:330-356 | a failed loop raises the error of an annotation whose rewrite fails |
| Variants.RewritePassIdempotent | TypedClass/index.py:329-357 | running the rewrite again, as every later construction of the class does, changes nothing |
| Variants.JsonSecondConstruction | TypedClass/index.py:367-391 | a field left by the Json rewrite and the Strict rewrite after it is a TypeDef that both rewrites leave unchanged |
| Variants.JsonPassesSettle | TypedClass/index.py:329-391 | when both passes of a Json construction succeed, running both again over their output changes nothing and raises nothing |
| Variants.RewritePassFailure | TypedClass/index.py:352-356 | over valid annotations a pass fails only at a bare annotation that is not a type, with TypeError |
| Variants.ConstructStrict | TypedClass/index.py:329-357 | `TypedClassStrict.__init__`: the Strict pass, then the base constructor; stated by `StrictPassRequires` and `StrictNeedsField` |
| Variants.ConstructJson | TypedClass/index.py:367-391 | `TypedClassJson.__init__`: the Json pass, then the Strict constructor; stated by `JsonConstructionSettles` and `Views.JsonRoundTrip` |
| Variants.JsonConstructionSettles | TypedClass/index.py:367-391 | after a first Json construction whose passes succeed, every later Json construction of the class is the base constructor over the annotations the first one left |
| Variants.JsonTupleFieldUnassignable | TypedClass/index.py:384-390 | a Json field with a tuple type that does not turn `convert` off rejects every assignment with TypeError, since the rewrites turn `convert` on |
| Variants.StrictPassRequires | TypedClass/index.py:333-341 | after a successful Strict pass, every field that does not opt out of `required` is a TypeDef with `required` True |
| Variants.StrictNeedsField | TypedClass/index.py:329-357 | a Strict instance cannot be built without a value for a field that does not opt out of `required`; if no earlier error is raised, the missing-fields error names it |
| Views.AttributesView | TypedClass/index.py:278-287 | `attributes`: the declared keys with an instance value or a default; stated by `DeleteRevealsDefault` and `ConstructThenAttributes` |
| Views.Flatten | TypedClass/index.py:315-318 | one `dict` entry: an object with `attributes` becomes that mapping; used by `FlattensBack` in the round trips |
| Views.DictView | TypedClass/index.py:304-319 | `dict` from `attributes`; stated by `DictOfCommitted` and `JsonRoundTrip` |
| Views.DictOfCommitted | TypedClass/index.py:304-319 | `dict` of a store holding exactly the converted entries of a mapping is that mapping, when each converted value flattens back and every field with a class default holds an instance value |
| Views.ConstructThenDict | TypedClass/index.py:147-174 | a completed construction from a mapping with distinct keys and no None values, followed by `dict`, gives the mapping back, when the mapping gives a value to every field with a class default and each converted value flattens back |
| Views.ConstructThenAttributes | TypedClass/index.py:278-287 | a completed construction from a mapping with distinct keys and no None values, whose conversions return their input and which gives a value to every field with a class default, has that mapping as its `attributes` |
| Views.JsonRoundTrip | TypedClass/index.py:500-501 | `TypedClassJson(m).dict == m` whenever construction completes, `m` has no None values, `m` gives a value to every field with a class default, and each field's class turns an entry into an object whose `attributes` are that entry |
| Views.JsonAttributesRoundTrip | TypedClass/index.py:367-391 | `TypedClassJson(m).attributes == m` whenever construction completes, `m` has no None values, gives a value to every field with a class default, and each field converts its entry to itself |
| TypedClasses.DeleteField | TypedClass/index.py:269-276 | deletion succeeds exactly when the field has an instance value and its TypeDef is not immutable; it removes that one value; every error is an AttributeError |
| TypedClasses.DeleteRevealsDefault | TypedClass/index.py:269-287 | after a deletion the field reads as its class default again, or leaves `attributes`; every other field reads as before |
| TypedClasses.DeletedRequiredIsUnset | TypedClass/index.py:269-276 | a deleted required field without a default counts as unset for the required-fields check |
| TypedClasses.TypedObject.SetAttr | TypedClass/index.py:176-267 | runs the checks in order; on success it commits the validated value, and on failure it raises that error and leaves the store unchanged; only declared fields ever hold values |
| TypedClasses.TypedObject.DelAttr | TypedClass/index.py:269-276 | the store after a deletion is the one `DeleteField` gives, or unchanged on error |
| TypedClasses.TypedObject.KeysWithValues | TypedClass/index.py:148-152 | the first loop of the constructor collects the keys `DefaultsKeys` describes |
| TypedClasses.TypedObject.AssignKeywords | TypedClass/index.py:154-156 | the keyword loop, calling `SetAttr` for each non-None value, leaves the values and error that `AssignAll` describes, and only declared fields hold values |
| TypedClasses.TypedObject.RequiredWithoutValue | TypedClass/index.py:160-167 | the last loop of the constructor collects the keys `UnsetRequired` describes |
| TypedClasses.TypedObject.Init | TypedClass/index.py:147-174 | the loops leave the annotations, values, recorded keys and outcome that `Construct` describes |
| TypedClasses.TypedObject.RewriteEach | TypedClass/index.py:330-356 | the loop over the declared keys computes the annotations and error that `RewritePass` describes, stopping at the first error |
| TypedClasses.TypedObject.RewriteAnnotations | TypedClass/index.py:330-356 | leaves the annotations and outcome that `RewritePass` describes: keys already rewritten stay rewritten when a later rewrite raises |
| TypedClasses.TypedObject.InitStrict | TypedClass/index.py:329-357 | leaves the state `ConstructStrict` describes |
| TypedClasses.TypedObject.InitJson | TypedClass/index.py:367-391 | leaves the state `ConstructJson` describes |
| TypedClasses.TypedObject.Attributes | TypedClass/index.py:278-287 | returns the declared keys that hold an instance value or a default, each with the instance value taking precedence |
| TypedClasses.TypedObject.Dict | TypedClass/index.py:304-319 | returns `attributes` with each value that has an `attributes` mapping replaced by that mapping, one level only |

## Left out

- Python reflection is modelled by explicit state. The `annotations` property, `__annotations__` lookup and its missing-annotations error (TypedClass/index.py:289-302) are left out. The class defaults are a map, and `hasattr`/`getattr` are lookups in the instance values and then the defaults. The special path for the private key list (TypedClass/index.py:177-179) is the field `defaultsKeys`.
- The Strict and Json rewrites write through to the class's shared `__annotations__`, so they affect every instance. The model keeps one annotation map per object. `Variants.RewritePassIdempotent` shows that a later Strict construction's pass changes nothing, and `Variants.JsonPassesSettle` and `Variants.JsonConstructionSettles` show the same for both passes of a later Json construction, which run over what the first one's Json and Strict passes left.
- The Strict and Json rewrite loop writes each rewritten annotation back as it goes. The model of `RewriteAnnotations` builds the rewritten map in `RewriteEach` and assigns it once. No rewrite reads another annotation, so the outcome is the same.
- `isinstance`, calling a class on a value, `inspect.signature` and calling the predicate are foreign behaviour, given as parameters in `Runtime`. Exceptions they raise, other than `isinstance` rejecting a target that is not a type, are not modelled. Examples are a conversion that raises, or a zero-parameter predicate called with one value.
- Nested tuples of types and `typing` unions as `isinstance` targets are not modelled. A tuple is a flat list of classes and non-types.
- Equality of values (`value not in choices`, comparing the round-tripped dict) is Dafny equality on `V`, not Python's `__eq__`.
- DeleteField: deleting a bare-typed field raises AttributeError in the source, only because the bare type has no `immutable` attribute. The model treats bare fields as not immutable, so such a deletion succeeds when the field holds a value.
- DeleteField: a user class used as a bare annotation that defines its own `immutable` attribute is not modelled.
- Error message text is not modelled; each error keeps the key it names, and the missing-fields error keeps its key list.
- `TypedClassJson` with a mapping whose keys are not strings raises TypeError when the mapping is unpacked; keys in the model are strings.
- A `TypeDef` instance passed as `typeof` is rejected by the first check, since isinstance cannot use it. The model's `typeof` is a class, a non-type, or a tuple of these.
- The example classes and the unittest module (TypedClass/index.py:394-516) are demonstrations. The round trip asserted at lines 500-501 for a `TypedClassJson` class is proved as `Views.JsonRoundTrip`, under the condition its nested class meets; `Views.JsonAttributesRoundTrip` shows a `TypedClassJson` class with string and bool fields, like the nested one, meets the `attributes` half of it. The check at lines 497-498 of `ExampleJSONValidationUsage`, a class with its own `__init__`, is not modelled.
