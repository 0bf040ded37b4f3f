/** Property filters that decide, entry by entry, whether and how a map entry is written. */
module Filters {
  import opened Results
  import opened Values

  datatype Filter =
      /** `SimpleBeanPropertyFilter.filterOutAllExcept(keep)`: write only the named keys. */
    | FilterOutAllExcept(keep: set<string>)
      /** The tests' custom `MyMapFilter`: write only key "a", shifted by its `CustomOffset`. */
    | MyMapFilter

  /** The only key `MyMapFilter` lets through. */
  const OffsetKey: string := "a"

  /** `MyMapFilter.serializeAsField` for one entry: `None` writes nothing, `Some(j)` writes the
      entry's key with value `j`. `offset` is the `CustomOffset` annotation of the map
      property, if it has one. */
  function MyMapFieldDecision(key: string, value: Value, offset: Option<int32>): (r: Result<Option<Json>>)
    ensures key != OffsetKey ==> r == Success(None)
    ensures key == OffsetKey ==> (r.Success? <==> value.Int?)
    ensures r.Failure? ==> r.error == FilterFailed(key)
    ensures r.Success? && r.value.Some? ==> r.value.value.JNumber?
    ensures key == OffsetKey && value.Int? ==>
      r == Success(Some(JNumber(Wrap32(offset.GetOr(0) as int + value.i as int))))
  {
    if key != OffsetKey then Success(None)
    else
      match value
      case Int(i) => Success(Some(JNumber(Wrap32(offset.GetOr(0) as int + i as int))))
      case _ => Failure(FilterFailed(key))
  }

  /** For key "a" the written number is the value plus the offset, taken modulo 2^32 as Java
      `int` addition does; without the annotation the value is written unchanged. */
  lemma MyMapFilterAddsOffset(i: int32, offset: Option<int32>)
    ensures var r := MyMapFieldDecision(OffsetKey, Int(i), offset);
      && r.Success? && r.value.Some?
      && (r.value.value.n as int - (offset.GetOr(0) as int + i as int)) % 0x1_0000_0000 == 0
      && (-0x8000_0000 <= offset.GetOr(0) as int + i as int < 0x8000_0000 ==>
            r.value.value.n as int == offset.GetOr(0) as int + i as int)
      && (offset.None? ==> r == Success(Some(JNumber(i))))
  {
  }

  /** `PropertyFilter.serializeAsField` for a map entry. */
  function FilterField(f: Filter, key: string, value: Value, offset: Option<int32>): (r: Result<Option<Json>>)
    ensures f.FilterOutAllExcept? ==> r.Success? && (r.value.Some? <==> key in f.keep)
    ensures f.FilterOutAllExcept? && r.Success? && r.value.Some? ==> r.value.value == Serialized(value)
    ensures r.Failure? ==> f.MyMapFilter? && key == OffsetKey && !value.Int?
    ensures f.MyMapFilter? && key != OffsetKey ==> r == Success(None)
  {
    match f
    case FilterOutAllExcept(keep) => Success(if key in keep then Some(Serialized(value)) else None)
    case MyMapFilter => MyMapFieldDecision(key, value, offset)
  }

  /** `SimpleFilterProvider`: filters by id. */
  type Registry = map<string, Filter>

  /** Resolve the filter a map is bound to; an id nobody registered is a configuration error. */
  function FindFilter(reg: Registry, filterId: string): (r: Result<Filter>)
    ensures r.Success? <==> filterId in reg
    ensures r.Success? ==> r.value == reg[filterId]
    ensures r.Failure? ==> r.error == UnknownFilter(filterId)
  {
    if filterId in reg then Success(reg[filterId]) else Failure(UnknownFilter(filterId))
  }

  /** `addFilter(id, f)`: the latest registration under an id wins; other ids are untouched. */
  function AddFilter(reg: Registry, filterId: string, f: Filter): (r: Registry)
    ensures FindFilter(r, filterId) == Success(f)
    ensures forall other :: other != filterId ==> FindFilter(r, other) == FindFilter(reg, other)
  {
    reg[filterId := f]
  }
}
