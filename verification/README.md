# Map entry filtering in jackson-databind, modelled in Dafny

This project models how jackson-databind decides which entries of a `java.util.Map` reach
the JSON object it writes, and what values they are written with. The behaviour comes from
the test class `TestMapFiltering` and its custom filter `MyMapFilter`. A map is an
insertion-ordered `LinkedHashMap`. Its entries are governed in one of two ways:

- a `@JsonFilter` id, resolved through the writer's filter provider
  (`SimpleBeanPropertyFilter.filterOutAllExcept`, or `MyMapFilter`, which keeps only key
  `"a"` and adds the property's `@CustomOffset`);
- an optional `@JsonInclude(content = ...)` policy: `ALWAYS`, `NON_NULL`, `NON_ABSENT` or
  `NON_EMPTY`. When no policy is declared, the mapper-wide `WRITE_NULL_MAP_VALUES` setting
  decides whether null values are written.

The result is the ordered sequence of written pairs. It is wrapped in an object that is
written even when the sequence is empty.

Files and modules:

- `results.dfy` (`Results`): `Option`, `Result` and the two ways serialization aborts. These
  are an unknown filter id, and a filter that raises.
- `values.dfy` (`Values`): map values. A value is a Java null, a `String`, an `Integer` (a
  32-bit `int32`), or an `AtomicReference` box. The module also defines the JSON values they
  are written as, and the predicates "absent" and "empty".
- `inclusion.dfy` (`Inclusion`): the four content policies and the include decision.
- `ordered_map.dfy` (`OrderedMap`): the `LinkedHashMap` as a sequence of pairs, with `put`,
  `get` and the subsequence relation.
- `filters.dfy` (`Filters`): `filterOutAllExcept`, `MyMapFilter` and the filter registry.
- `map_serializer.dfy` (`MapSerializer`): binding resolution, the per-entry decision, the loop
  over the entries, the map object, and a bean whose one property holds the map.
- `scenarios.dfy` (`MapFilteringScenarios`): the expected output of every test method.

The engine classes (`MapSerializer`, `SimpleBeanPropertyFilter`, `SimpleFilterProvider`) are
not part of this model. Their behaviour here is what the tests fix, plus modelling choices for
the cases the tests need but do not show:

- an unknown filter id aborts the whole document;
- a filter decides alone;
- the global null flag applies only when no content policy is declared;
- a box counts as empty when its payload is empty, and NON_NULL keeps a box even when it
  holds null.

## Model

| member | source | states |
|---|---|---|
| `Values.Wrap32` | src/test/java/com/fasterxml/jackson/databind/filter/TestMapFiltering.java:57 | Java `int` addition: the result is congruent to the exact sum modulo 2^32, and equals it when the sum fits in 32 bits |
| `Values.IsAbsent` | src/test/java/com/fasterxml/jackson/databind/filter/TestMapFiltering.java:189-197 | NON_ABSENT's notion of absent: null is absent, a String or Integer never is, a box is absent exactly when it holds null, and whatever is absent is also empty |
| `Values.IsEmpty` | src/test/java/com/fasterxml/jackson/databind/filter/TestMapFiltering.java:179-187 | NON_EMPTY's notion of empty: null is empty, a String exactly when it has length 0, an Integer never, and a box exactly when its payload is empty |
| `Values.Serialized` | src/test/java/com/fasterxml/jackson/databind/filter/TestMapFiltering.java:191-197 | null is written as null, a String and an Integer as themselves, and a box as its payload, never as a wrapper; so an absent value is written as null, and a value is empty exactly when it is written as null or as "" |
| `Inclusion.ShouldInclude` | src/test/java/com/fasterxml/jackson/databind/filter/TestMapFiltering.java:150-197 | the include decision: ALWAYS keeps everything; a null is kept only under ALWAYS; a non-empty String or an Integer passes every policy, and only NON_EMPTY drops a String ("" alone); NON_ABSENT drops a box exactly when it holds null; NON_EMPTY drops exactly what would be written as null or "" |
| `Inclusion.StricterPolicyKeepsLess` | src/test/java/com/fasterxml/jackson/databind/filter/TestMapFiltering.java:84-120 | in the order ALWAYS, NON_NULL, NON_ABSENT, NON_EMPTY, a value kept by a stricter policy is kept by every laxer one |
| `Inclusion.StricterPolicyKeepsStrictlyLess` | src/test/java/com/fasterxml/jackson/databind/filter/TestMapFiltering.java:84-120 | the order is strict: for any two distinct policies some value is kept by the laxer one and dropped by the stricter one (e.g. "" under NON_ABSENT vs NON_EMPTY) |
| `OrderedMap.Put` | src/test/java/com/fasterxml/jackson/databind/filter/TestMapFiltering.java:36-41 | a new key goes last in iteration order; an existing key keeps its place, so the key order is unchanged |
| `OrderedMap.PutThenGet` | src/test/java/com/fasterxml/jackson/databind/filter/TestMapFiltering.java:36-41 | after `put(k, v)`, `get(k)` yields `v` |
| `OrderedMap.PutLeavesOtherKeys` | src/test/java/com/fasterxml/jackson/databind/filter/TestMapFiltering.java:36-41 | `put(k, v)` leaves the value under every other key as it was |
| `OrderedMap.PutKeepsKeysDistinct` | src/test/java/com/fasterxml/jackson/databind/filter/TestMapFiltering.java:89-91 | `put` never creates a second entry for a key |
| `OrderedMap.EntryIffLookup` | src/test/java/com/fasterxml/jackson/databind/filter/TestMapFiltering.java:97-101 | with distinct keys, an entry is in the map exactly when looking up its key finds its value |
| `Filters.MyMapFieldDecision` | src/test/java/com/fasterxml/jackson/databind/filter/TestMapFiltering.java:50-60 | `MyMapFilter` writes nothing for any key other than "a"; for "a" it writes a number exactly when the value is an Integer, that number being the value plus the offset (0 when absent) in 32-bit arithmetic, and otherwise fails naming the key |
| `Filters.MyMapFilterAddsOffset` | src/test/java/com/fasterxml/jackson/databind/filter/TestMapFiltering.java:55-59 | for "a" the written number is the value plus the `CustomOffset` (32-bit wrap-around); without the annotation (offset 0) the value is written unchanged |
| `Filters.FilterField` | src/test/java/com/fasterxml/jackson/databind/filter/TestMapFiltering.java:130-147 | `filterOutAllExcept(keep)` never fails, writes an entry exactly when its key is kept, and writes the value as is; `MyMapFilter` writes nothing for a key other than "a" and can fail only on a non-Integer under "a" |
| `Filters.AddFilter` | src/test/java/com/fasterxml/jackson/databind/filter/TestMapFiltering.java:132-133 | after `addFilter(id, f)`, `id` resolves to `f` and every other id resolves as before |
| `MapSerializer.EffectivePolicy` | src/test/java/com/fasterxml/jackson/databind/filter/TestMapFiltering.java:199-208 | a declared content policy is used as is; without one, non-null values are always kept and a null is kept exactly when `WRITE_NULL_MAP_VALUES` is on |
| `MapSerializer.ResolveEmitter` | src/test/java/com/fasterxml/jackson/databind/filter/TestMapFiltering.java:28-34 | resolving a binding fails exactly when it names an unregistered filter id; a filter binding yields the registered filter with the property's offset; a policy binding never fails |
| `MapSerializer.EmitEntry` | src/test/java/com/fasterxml/jackson/databind/filter/TestMapFiltering.java:150-157 | without a filter an entry is written exactly when the policy keeps its value, and the value is written as is; `MyMapFilter` writes nothing for a key other than "a", and only under "a" does it rewrite or fail |
| `MapSerializer.SerializeFields` | src/test/java/com/fasterxml/jackson/databind/filter/TestMapFiltering.java:150-157 | the written keys are an order-preserving subsequence of the map's keys, and there are never more fields than entries |
| `MapSerializer.SerializeMap` | src/test/java/com/fasterxml/jackson/databind/filter/TestMapFiltering.java:199-208 | a serialized map is always an object (possibly `{}`) whose keys are an ordered subsequence of the map's; an unknown filter id aborts before anything is written |
| `MapSerializer.Serialize` | src/test/java/com/fasterxml/jackson/databind/filter/TestMapFiltering.java:130-136 | the document for a map or for a bean holding a map is always an object |
| `MapSerializer.DocumentFailsIff` | src/test/java/com/fasterxml/jackson/databind/filter/TestMapFiltering.java:44-60 | a document fails exactly when its map is bound to an unregistered filter id, or to `MyMapFilter` while holding a non-Integer under "a"; a content policy never fails, whether the binding is on the map class or on the holder's property |
| `MapSerializer.FieldsSucceedIff` | src/test/java/com/fasterxml/jackson/databind/filter/TestMapFiltering.java:44-60 | a map serializes exactly when no entry's decision fails |
| `MapSerializer.PolicyFieldsSucceed` | src/test/java/com/fasterxml/jackson/databind/filter/TestMapFiltering.java:84-120 | a map governed by a content policy always serializes |
| `MapSerializer.FieldsMembership` | src/test/java/com/fasterxml/jackson/databind/filter/TestMapFiltering.java:130-136 | a pair is written exactly when some entry with that key is decided into that pair |
| `MapSerializer.ExcludedLeaveNoTrace` | src/test/java/com/fasterxml/jackson/databind/filter/TestMapFiltering.java:150-157 | with distinct keys, a skipped entry's key does not occur in the output at all (no null placeholder) |
| `MapSerializer.FieldsKeepKeysDistinct` | src/test/java/com/fasterxml/jackson/databind/filter/TestMapFiltering.java:170-177 | the written object never repeats a key when the map does not |
| `MapSerializer.PolicyMapContents` | src/test/java/com/fasterxml/jackson/databind/filter/TestMapFiltering.java:170-197 | under a content policy, the object holds exactly the entries whose values the effective policy keeps, each value written as is (a box as its payload) |
| `MapSerializer.FilterOutAllExceptContents` | src/test/java/com/fasterxml/jackson/databind/filter/TestMapFiltering.java:130-147 | under `filterOutAllExcept(keep)`, every written key is in `keep`, and the output holds exactly the entries with kept keys, with their values as is |
| `MapSerializer.MyMapFilterResult` | src/test/java/com/fasterxml/jackson/databind/filter/TestMapFiltering.java:44-60 | under `MyMapFilter` a map with distinct keys yields `{}` if it has no "a"; otherwise `{"a": value + offset}` when the value is an Integer, else the failure for "a" |
| `MapSerializer.NullFlagOnlyAffectsNulls` | src/test/java/com/fasterxml/jackson/databind/filter/TestMapFiltering.java:199-208 | for a map without nulls and without a declared content policy, `WRITE_NULL_MAP_VALUES` on and off give the same map object |
| `MapSerializer.NullFlagDecidesNullEntries` | src/test/java/com/fasterxml/jackson/databind/filter/TestMapFiltering.java:199-208 | without a declared policy, a null entry is written as `key: null` exactly when the flag is on, and otherwise its key is absent |
| `MapSerializer.StricterPolicyWritesSubsequence` | src/test/java/com/fasterxml/jackson/databind/filter/TestMapFiltering.java:150-197 | a stricter content policy writes a subsequence of the pairs a laxer one writes |
| `MapSerializer.AllExcludedGivesEmptyObject` | src/test/java/com/fasterxml/jackson/databind/filter/TestMapFiltering.java:199-208 | a map whose every entry is skipped yields no fields, so its object is `{}` |
| `MapFilteringScenarios.MapBeanValuesOrder` | src/test/java/com/fasterxml/jackson/databind/filter/TestMapFiltering.java:36-41 | put(a,1), put(b,5), put(c,9) iterate as a, b, c |
| `MapFilteringScenarios.MapFilteringViaProps` | src/test/java/com/fasterxml/jackson/databind/filter/TestMapFiltering.java:130-136 | `MapBean` with `filterX = filterOutAllExcept("b")` is written as `{"values":{"b":5}}` |
| `MapFilteringScenarios.MapFilteringViaClass` | src/test/java/com/fasterxml/jackson/databind/filter/TestMapFiltering.java:138-147 | `FilteredBean` {a:4,b:3} with `filterForMaps = filterOutAllExcept("b")` is written as `{"b":3}` |
| `MapFilteringScenarios.NonNullValueMapViaProp` | src/test/java/com/fasterxml/jackson/databind/filter/TestMapFiltering.java:149-157 | a property with content NON_NULL holding {a:foo,b:null,c:bar} is written as `{"stuff":{"a":"foo","c":"bar"}}` |
| `MapFilteringScenarios.MapFilteringWithAnnotations` | src/test/java/com/fasterxml/jackson/databind/filter/TestMapFiltering.java:159-167 | `MapBean` with `filterX = MyMapFilter` and offset 1 is written as `{"values":{"a":2}}` |
| `MapFilteringScenarios.MapNonNullValue` | src/test/java/com/fasterxml/jackson/databind/filter/TestMapFiltering.java:169-177 | a map class with content NON_NULL holding {a:foo,b:null,c:bar} is written as `{"a":"foo","c":"bar"}` |
| `MapFilteringScenarios.MapNonEmptyValue` | src/test/java/com/fasterxml/jackson/databind/filter/TestMapFiltering.java:179-187 | content NON_EMPTY on {a:foo,b:bar,c:""} writes `{"a":"foo","b":"bar"}` |
| `MapFilteringScenarios.MapAbsentValue` | src/test/java/com/fasterxml/jackson/databind/filter/TestMapFiltering.java:189-197 | content NON_ABSENT on {a:box(foo),b:box(null)} writes `{"a":"foo"}` |
| `MapFilteringScenarios.MapNullSerialization` | src/test/java/com/fasterxml/jackson/databind/filter/TestMapFiltering.java:199-208 | {a:null} with no policy is written as `{"a":null}` by default and as `{}` once `WRITE_NULL_MAP_VALUES` is off |

## Left out

- JSON text: the output is the sequence of written pairs and a small `Json` value. The generator, escaping, `writeValueAsString` and the tests' `aposToQuotes` helper are not modelled.
- Annotation discovery: `@JsonFilter`, `@JsonInclude` and `@CustomOffset` become the fields of `MapSerializer.Binding`. Property-level versus class-level lookup is not modelled; both give the same binding.
- A map bound to both a filter and a content policy: the tests never combine them, so a binding is one or the other. For a filter-bound map the content policy and `WRITE_NULL_MAP_VALUES` are not consulted, because the filter decides alone.
- `MyMapFilter.serializeAsElement` and both `depositSchemaProperty` overloads are no-ops or schema hooks. They play no part in writing map entries.
- `AtomicReference` is an immutable box. Its thread-safety has no bearing on what is written.
- `testMapNullSerialization` uses a `HashMap`. Its one entry makes iteration order irrelevant, so it is modelled like the other maps.
- Collections and arrays as map values, and so NON_EMPTY on them: no test writes one.
- `serializeAllExcept` and other filter kinds: no test uses them.
- Beans in general: only a bean whose single property holds the map (`MapBean`, `NoNullValuesMapContainer`) is modelled.
- `IOException` and other I/O failures: only two errors are modelled. One is an unknown filter id. The other is `MyMapFilter`'s cast or unboxing of a non-Integer value under "a".
- IsEmpty, ShouldInclude: the tests apply NON_EMPTY and NON_NULL only to plain values, never to a box. A box counting as empty when its payload is empty, and NON_NULL keeping a box that holds null (written as null), are modelling choices, not fixed by any test.
- `@CustomOffset` targets fields only (line 21), so in the source an offset arrives only through a map-valued property. `MapSerializer.Binding` also lets a map-class binding carry one; no scenario uses that, and such a binding cannot arise from the annotations.
- Null map keys: every key is a `String`. A `null` key and the null-key serializer are not modelled, since no test writes one.
- Repeatability: serializing twice with the same configuration gives the same output because every operation is a pure function. No separate lemma states it.
- The `MapSerializer`, `SimpleBeanPropertyFilter` and `SimpleFilterProvider` classes are not part of this model. Their observable behaviour is taken from the tests' expected outputs.
