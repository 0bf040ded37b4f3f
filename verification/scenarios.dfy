/** The expected outputs of the map filtering tests, as facts about the model. Each test map is
    built with `put`, as the tests build it; a companion lemma pins its iteration order. */
module MapFilteringScenarios {
  import opened Results
  import opened Values
  import opened Inclusion
  import opened OrderedMap
  import opened Filters
  import opened MapSerializer

  /** `MAPPER.writer(prov)` with `prov` holding one filter under `filterId`. */
  function WriterWith(filterId: string, f: Filter): (cfg: Config) {
    DefaultConfig.(filters := AddFilter(map[], filterId, f))
  }

  /** Two successive `put`s of new keys into an empty `LinkedHashMap`. */
  lemma PutTwo(k1: string, v1: Value, k2: string, v2: Value)
    requires k1 != k2
    ensures Put(Put([], k1, v1), k2, v2) == [(k1, v1), (k2, v2)]
  {
    PutAppendsNewKey([], k1, v1);
    assert KeysOf([(k1, v1)]) == [k1];
    PutAppendsNewKey([(k1, v1)], k2, v2);
    assert [(k1, v1)] + [(k2, v2)] == [(k1, v1), (k2, v2)];
  }

  /** Three successive `put`s of new keys into an empty `LinkedHashMap`. */
  lemma PutThree(k1: string, v1: Value, k2: string, v2: Value, k3: string, v3: Value)
    requires k1 != k2 && k1 != k3 && k2 != k3
    ensures Put(Put(Put([], k1, v1), k2, v2), k3, v3) == [(k1, v1), (k2, v2), (k3, v3)]
  {
    var m2 := [(k1, v1), (k2, v2)];
    PutTwo(k1, v1, k2, v2);
    assert KeysOf(m2) == [k1, k2];
    PutAppendsNewKey(m2, k3, v3);
    assert m2 + [(k3, v3)] == [(k1, v1), (k2, v2), (k3, v3)];
  }

  // ---------------------------------------------------------------------------------------
  // The maps of the tests

  /** `MapBean.values`: put(a,1), put(b,5), put(c,9). */
  function MapBeanValues(): (m: Entries<Value>) {
    Put(Put(Put([], "a", Int(1)), "b", Int(5)), "c", Int(9))
  }

  lemma MapBeanValuesOrder()
    ensures MapBeanValues() == [("a", Int(1)), ("b", Int(5)), ("c", Int(9))]
  {
    PutThree("a", Int(1), "b", Int(5), "c", Int(9));
  }

  /** `MapBean`: its one property `values` carries `@JsonFilter("filterX")` and `@CustomOffset(1)`. */
  function MapBean(): (root: Root) {
    MapHolder("values", MapBeanValues(), FilterBinding("filterX", Some(1)))
  }

  /** The `FilteredBean` of `testMapFilteringViaClass`: put(a,4), put(b,3). */
  function FilteredBeanValues(): (m: Entries<Value>) {
    Put(Put([], "a", Int(4)), "b", Int(3))
  }

  lemma FilteredBeanValuesOrder()
    ensures FilteredBeanValues() == [("a", Int(4)), ("b", Int(3))]
  {
    PutTwo("a", Int(4), "b", Int(3));
  }

  /** add(a,"foo"), add(b,null), add(c,"bar"), as in both NON_NULL tests. */
  function FooNullBar(): (m: Entries<Value>) {
    Put(Put(Put([], "a", Str("foo")), "b", Null), "c", Str("bar"))
  }

  lemma FooNullBarOrder()
    ensures FooNullBar() == [("a", Str("foo")), ("b", Null), ("c", Str("bar"))]
  {
    PutThree("a", Str("foo"), "b", Null, "c", Str("bar"));
  }

  /** add(a,"foo"), add(b,"bar"), add(c,""), as in the NON_EMPTY test. */
  function FooBarEmpty(): (m: Entries<Value>) {
    Put(Put(Put([], "a", Str("foo")), "b", Str("bar")), "c", Str(""))
  }

  lemma FooBarEmptyOrder()
    ensures FooBarEmpty() == [("a", Str("foo")), ("b", Str("bar")), ("c", Str(""))]
  {
    PutThree("a", Str("foo"), "b", Str("bar"), "c", Str(""));
  }

  /** `NoAbsentStringMap.add` boxes each value: a=box("foo"), b=box(null). */
  function BoxedFooAndNull(): (m: Entries<Value>) {
    Put(Put([], "a", Ref(Str("foo"))), "b", Ref(Null))
  }

  lemma BoxedFooAndNullOrder()
    ensures BoxedFooAndNull() == [("a", Ref(Str("foo"))), ("b", Ref(Null))]
  {
    PutTwo("a", Ref(Str("foo")), "b", Ref(Null));
  }

  // ---------------------------------------------------------------------------------------
  // The field loop on each map

  lemma OnlyBOfMapBean(offset: Option<int32>)
    ensures SerializeFields([("a", Int(1)), ("b", Int(5)), ("c", Int(9))], ByFilter(FilterOutAllExcept({"b"}), offset))
         == Success([("b", JNumber(5))])
  {
    var m: Entries<Value> := [("a", Int(1)), ("b", Int(5)), ("c", Int(9))];
    var e := ByFilter(FilterOutAllExcept({"b"}), offset);
    SkippedEntryVanishes("c", Int(9), [], e, []);
    assert [("c", Int(9))] + [] == m[2..];
    KeptEntryLeads("b", Int(5), m[2..], e, JNumber(5), []);
    assert [("b", Int(5))] + m[2..] == m[1..];
    assert [("b", JNumber(5))] + [] == [("b", JNumber(5))];
    SkippedEntryVanishes("a", Int(1), m[1..], e, [("b", JNumber(5))]);
    assert [("a", Int(1))] + m[1..] == m;
  }

  lemma OnlyBOfFilteredBean()
    ensures SerializeFields([("a", Int(4)), ("b", Int(3))], ByFilter(FilterOutAllExcept({"b"}), None))
         == Success([("b", JNumber(3))])
  {
    var m: Entries<Value> := [("a", Int(4)), ("b", Int(3))];
    var e := ByFilter(FilterOutAllExcept({"b"}), None);
    KeptEntryLeads("b", Int(3), [], e, JNumber(3), []);
    assert [("b", Int(3))] + [] == m[1..];
    assert [("b", JNumber(3))] + [] == [("b", JNumber(3))];
    SkippedEntryVanishes("a", Int(4), m[1..], e, [("b", JNumber(3))]);
    assert [("a", Int(4))] + m[1..] == m;
  }

  lemma MyMapFilterOfMapBean()
    ensures SerializeFields([("a", Int(1)), ("b", Int(5)), ("c", Int(9))], ByFilter(MyMapFilter, Some(1)))
         == Success([("a", JNumber(2))])
  {
    var m: Entries<Value> := [("a", Int(1)), ("b", Int(5)), ("c", Int(9))];
    var e := ByFilter(MyMapFilter, Some(1));
    SkippedEntryVanishes("c", Int(9), [], e, []);
    assert [("c", Int(9))] + [] == m[2..];
    SkippedEntryVanishes("b", Int(5), m[2..], e, []);
    assert [("b", Int(5))] + m[2..] == m[1..];
    assert EmitEntry("a", Int(1), e) == Success(Some(JNumber(2)));
    KeptEntryLeads("a", Int(1), m[1..], e, JNumber(2), []);
    assert [("a", Int(1))] + m[1..] == m;
    assert [("a", JNumber(2))] + [] == [("a", JNumber(2))];
  }

  lemma NonNullOfFooNullBar()
    ensures SerializeFields([("a", Str("foo")), ("b", Null), ("c", Str("bar"))], ByPolicy(NonNull))
         == Success([("a", JString("foo")), ("c", JString("bar"))])
  {
    var m: Entries<Value> := [("a", Str("foo")), ("b", Null), ("c", Str("bar"))];
    var e := ByPolicy(NonNull);
    KeptEntryLeads("c", Str("bar"), [], e, JString("bar"), []);
    assert [("c", Str("bar"))] + [] == m[2..];
    assert [("c", JString("bar"))] + [] == [("c", JString("bar"))];
    SkippedEntryVanishes("b", Null, m[2..], e, [("c", JString("bar"))]);
    assert [("b", Null)] + m[2..] == m[1..];
    KeptEntryLeads("a", Str("foo"), m[1..], e, JString("foo"), [("c", JString("bar"))]);
    assert [("a", Str("foo"))] + m[1..] == m;
    assert [("a", JString("foo"))] + [("c", JString("bar"))] == [("a", JString("foo")), ("c", JString("bar"))];
  }

  lemma NonEmptyOfFooBarEmpty()
    ensures SerializeFields([("a", Str("foo")), ("b", Str("bar")), ("c", Str(""))], ByPolicy(NonEmpty))
         == Success([("a", JString("foo")), ("b", JString("bar"))])
  {
    var m: Entries<Value> := [("a", Str("foo")), ("b", Str("bar")), ("c", Str(""))];
    var e := ByPolicy(NonEmpty);
    SkippedEntryVanishes("c", Str(""), [], e, []);
    assert [("c", Str(""))] + [] == m[2..];
    KeptEntryLeads("b", Str("bar"), m[2..], e, JString("bar"), []);
    assert [("b", Str("bar"))] + m[2..] == m[1..];
    assert [("b", JString("bar"))] + [] == [("b", JString("bar"))];
    KeptEntryLeads("a", Str("foo"), m[1..], e, JString("foo"), [("b", JString("bar"))]);
    assert [("a", Str("foo"))] + m[1..] == m;
    assert [("a", JString("foo"))] + [("b", JString("bar"))] == [("a", JString("foo")), ("b", JString("bar"))];
  }

  lemma NonAbsentOfBoxes()
    ensures SerializeFields([("a", Ref(Str("foo"))), ("b", Ref(Null))], ByPolicy(NonAbsent))
         == Success([("a", JString("foo"))])
  {
    var m: Entries<Value> := [("a", Ref(Str("foo"))), ("b", Ref(Null))];
    var e := ByPolicy(NonAbsent);
    SkippedEntryVanishes("b", Ref(Null), [], e, []);
    assert [("b", Ref(Null))] + [] == m[1..];
    assert Serialized(Ref(Str("foo"))) == JString("foo");
    KeptEntryLeads("a", Ref(Str("foo")), m[1..], e, JString("foo"), []);
    assert [("a", Ref(Str("foo")))] + m[1..] == m;
    assert [("a", JString("foo"))] + [] == [("a", JString("foo"))];
  }

  // ---------------------------------------------------------------------------------------
  // The tests

  lemma MapFilteringViaProps()
    ensures Serialize(MapBean(), WriterWith("filterX", FilterOutAllExcept({"b"})))
         == Success(JObject([("values", JObject([("b", JNumber(5))]))]))
  {
    MapBeanValuesOrder();
    OnlyBOfMapBean(Some(1));
  }

  lemma MapFilteringViaClass()
    ensures Serialize(MapRoot(FilteredBeanValues(), FilterBinding("filterForMaps", None)),
                      WriterWith("filterForMaps", FilterOutAllExcept({"b"})))
         == Success(JObject([("b", JNumber(3))]))
  {
    FilteredBeanValuesOrder();
    OnlyBOfFilteredBean();
  }

  lemma NonNullValueMapViaProp()
    ensures Serialize(MapHolder("stuff", FooNullBar(), PolicyBinding(Some(NonNull))), DefaultConfig)
         == Success(JObject([("stuff", JObject([("a", JString("foo")), ("c", JString("bar"))]))]))
  {
    FooNullBarOrder();
    NonNullOfFooNullBar();
  }

  lemma MapFilteringWithAnnotations()
    ensures Serialize(MapBean(), WriterWith("filterX", MyMapFilter))
         == Success(JObject([("values", JObject([("a", JNumber(2))]))]))
  {
    MapBeanValuesOrder();
    MyMapFilterOfMapBean();
  }

  lemma MapNonNullValue()
    ensures Serialize(MapRoot(FooNullBar(), PolicyBinding(Some(NonNull))), DefaultConfig)
         == Success(JObject([("a", JString("foo")), ("c", JString("bar"))]))
  {
    FooNullBarOrder();
    NonNullOfFooNullBar();
  }

  lemma MapNonEmptyValue()
    ensures Serialize(MapRoot(FooBarEmpty(), PolicyBinding(Some(NonEmpty))), DefaultConfig)
         == Success(JObject([("a", JString("foo")), ("b", JString("bar"))]))
  {
    FooBarEmptyOrder();
    NonEmptyOfFooBarEmpty();
  }

  lemma MapAbsentValue()
    ensures Serialize(MapRoot(BoxedFooAndNull(), PolicyBinding(Some(NonAbsent))), DefaultConfig)
         == Success(JObject([("a", JString("foo"))]))
  {
    BoxedFooAndNullOrder();
    NonAbsentOfBoxes();
  }

  lemma MapNullSerialization()
    ensures Serialize(MapRoot(Put([], "a", Null), PolicyBinding(None)), DefaultConfig)
         == Success(JObject([("a", JNull)]))
    ensures Serialize(MapRoot(Put([], "a", Null), PolicyBinding(None)), DefaultConfig.(writeNullMapValues := false))
         == Success(JObject([]))
  {
    var m := [("a", Null)];
    assert Put([], "a", Null) == m;
    KeptEntryLeads("a", Null, [], ByPolicy(Always), JNull, []);
    SkippedEntryVanishes("a", Null, [], ByPolicy(NonNull), []);
    assert [("a", Null)] + [] == m;
    assert [("a", JNull)] + [] == [("a", JNull)];
  }
}
