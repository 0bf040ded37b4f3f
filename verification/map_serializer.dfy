/** Serialization of a map as a document object: which entries reach the output, in what
    order and with what values. */
module MapSerializer {
  import opened Results
  import opened Values
  import opened Inclusion
  import opened OrderedMap
  import opened Filters

  /** What governs a map's entries, as found on the map class or on the property holding it:
      either a `@JsonFilter` id (with the property's optional `@CustomOffset`), or an optional
      `@JsonInclude(content = ...)` policy. */
  datatype Binding =
    | FilterBinding(filterId: string, offset: Option<int32>)
    | PolicyBinding(content: Option<Policy>)

  /** Writer configuration: the filter provider and `SerializationFeature.WRITE_NULL_MAP_VALUES`. */
  datatype Config = Config(filters: Registry, writeNullMapValues: bool)

  /** A fresh mapper: no filters, null map values written. */
  const DefaultConfig: Config := Config(map[], true)

  /** The per-entry decision once the binding is resolved. */
  datatype Emitter =
    | ByFilter(filter: Filter, offset: Option<int32>)
    | ByPolicy(policy: Policy)

  /** The content policy in force: the declared one, else what the global null flag implies. */
  function EffectivePolicy(content: Option<Policy>, writeNullMapValues: bool): (p: Policy)
    ensures content.Some? ==> p == content.value
    ensures content.None? ==> (ShouldInclude(Null, p) <==> writeNullMapValues)
    ensures content.None? ==> forall v :: v != Null ==> ShouldInclude(v, p)
  {
    match content
    case Some(c) => c
    case None => if writeNullMapValues then Always else NonNull
  }

  /** Resolve a binding before anything is written; an unknown filter id aborts. */
  function ResolveEmitter(b: Binding, cfg: Config): (r: Result<Emitter>)
    ensures r.Failure? <==> b.FilterBinding? && b.filterId !in cfg.filters
    ensures r.Failure? ==> r.error == UnknownFilter(b.filterId)
    ensures b.FilterBinding? && r.Success? ==> r.value == ByFilter(cfg.filters[b.filterId], b.offset)
    ensures b.PolicyBinding? ==> r.Success? && r.value.ByPolicy?
  {
    match b
    case FilterBinding(id, offset) =>
      var f :- FindFilter(cfg.filters, id);
      Success(ByFilter(f, offset))
    case PolicyBinding(content) =>
      Success(ByPolicy(EffectivePolicy(content, cfg.writeNullMapValues)))
  }

  /** One entry: `None` leaves no trace, `Some(j)` writes the key with value `j`. A bound filter
      decides alone; otherwise the policy decides and the value is written as is. */
  function EmitEntry(key: string, value: Value, e: Emitter): (r: Result<Option<Json>>)
    ensures e.ByPolicy? ==> r.Success? && (r.value.Some? <==> ShouldInclude(value, e.policy))
    ensures r.Success? && r.value.Some? && !(e.ByFilter? && e.filter.MyMapFilter?) ==>
      r.value.value == Serialized(value)
    ensures r.Failure? ==> e.ByFilter? && e.filter.MyMapFilter? && key == OffsetKey
    ensures e.ByFilter? && e.filter.MyMapFilter? && key != OffsetKey ==> r == Success(None)
  {
    match e
    case ByFilter(f, offset) => FilterField(f, key, value, offset)
    case ByPolicy(p) => Success(if ShouldInclude(value, p) then Some(Serialized(value)) else None)
  }

  /** The fields of the map object, in the map's iteration order; the first failing entry
      aborts the whole map. */
  function SerializeFields(entries: Entries<Value>, e: Emitter): (r: Result<seq<(string, Json)>>)
    ensures r.Success? ==> IsSubsequence(KeysOf(r.value), KeysOf(entries))
    ensures r.Success? ==> |r.value| <= |entries|
  {
    if |entries| == 0 then Success([])
    else
      var head := EmitEntry(entries[0].0, entries[0].1, e);
      if head.Failure? then Failure(head.error)
      else
        var rest := SerializeFields(entries[1..], e);
        KeysOfTail(entries);
        if rest.Failure? then rest
        else if head.value.None? then rest
        else
          KeysOfCons((entries[0].0, head.value.value), rest.value);
          Success([(entries[0].0, head.value.value)] + rest.value)
  }

  /** An entry the decision keeps comes first, ahead of the fields of the entries after it. */
  lemma KeptEntryLeads(k: string, v: Value, rest: Entries<Value>, e: Emitter, j: Json, out: seq<(string, Json)>)
    requires EmitEntry(k, v, e) == Success(Some(j))
    requires SerializeFields(rest, e) == Success(out)
    ensures SerializeFields([(k, v)] + rest, e) == Success([(k, j)] + out)
  {
    assert ([(k, v)] + rest)[1..] == rest;
  }

  /** An entry the decision skips adds nothing to the fields of the entries after it. */
  lemma SkippedEntryVanishes(k: string, v: Value, rest: Entries<Value>, e: Emitter, out: seq<(string, Json)>)
    requires EmitEntry(k, v, e) == Success(None)
    requires SerializeFields(rest, e) == Success(out)
    ensures SerializeFields([(k, v)] + rest, e) == Success(out)
  {
    assert ([(k, v)] + rest)[1..] == rest;
  }

  /** A map as a document object. */
  function SerializeMap(entries: Entries<Value>, b: Binding, cfg: Config): (r: Result<Json>)
    ensures r.Success? ==> r.value.JObject?
    ensures r.Success? ==> IsSubsequence(KeysOf(r.value.fields), KeysOf(entries))
    ensures b.FilterBinding? && b.filterId !in cfg.filters ==> r == Failure(UnknownFilter(b.filterId))
  {
    var e :- ResolveEmitter(b, cfg);
    var fields :- SerializeFields(entries, e);
    Success(JObject(fields))
  }

  /** The value handed to the writer: a map subclass itself, or a bean whose one property holds
      the map (the binding then comes from that property's annotations). */
  datatype Root =
    | MapRoot(entries: Entries<Value>, binding: Binding)
    | MapHolder(property: string, held: Entries<Value>, heldBinding: Binding)

  function Serialize(root: Root, cfg: Config): (r: Result<Json>)
    ensures r.Success? ==> r.value.JObject?
  {
    match root
    case MapRoot(entries, b) => SerializeMap(entries, b, cfg)
    case MapHolder(property, held, b) =>
      var inner :- SerializeMap(held, b, cfg);
      Success(JObject([(property, inner)]))
  }

  /** A document fails exactly when its map is bound to a filter id nobody registered, or to
      `MyMapFilter` while holding a non-integer under "a"; a content policy never fails. */
  lemma DocumentFailsIff(root: Root, cfg: Config)
    ensures var (m, b) := if root.MapRoot? then (root.entries, root.binding) else (root.held, root.heldBinding);
      Serialize(root, cfg).Failure? <==>
        && b.FilterBinding?
        && (|| b.filterId !in cfg.filters
            || (&& cfg.filters[b.filterId].MyMapFilter?
                && exists i :: 0 <= i < |m| && m[i].0 == OffsetKey && !m[i].1.Int?))
  {
    var (m, b) := if root.MapRoot? then (root.entries, root.binding) else (root.held, root.heldBinding);
    var er := ResolveEmitter(b, cfg);
    if er.Success? {
      FieldsSucceedIff(m, er.value);
    }
  }

  // ---------------------------------------------------------------------------------------
  // Properties of the field loop

  /** The map serializes exactly when no entry's decision fails. */
  lemma {:induction false} FieldsSucceedIff(entries: Entries<Value>, e: Emitter)
    ensures SerializeFields(entries, e).Success? <==>
      forall i :: 0 <= i < |entries| ==> EmitEntry(entries[i].0, entries[i].1, e).Success?
  {
    if |entries| > 0 {
      FieldsSucceedIff(entries[1..], e);
      assert forall i :: 1 <= i < |entries| ==> entries[i] == entries[1..][i - 1];
    }
  }

  /** Without a filter nothing can fail. */
  lemma PolicyFieldsSucceed(entries: Entries<Value>, p: Policy)
    ensures SerializeFields(entries, ByPolicy(p)).Success?
  {
    FieldsSucceedIff(entries, ByPolicy(p));
  }

  /** A pair is written exactly when some entry with that key is decided into it. */
  lemma {:induction false} FieldsMembership(entries: Entries<Value>, e: Emitter, out: seq<(string, Json)>)
    requires SerializeFields(entries, e) == Success(out)
    ensures forall k, j :: (k, j) in out <==>
      exists v :: (k, v) in entries && EmitEntry(k, v, e) == Success(Some(j))
  {
    if |entries| > 0 {
      var k0, v0 := entries[0].0, entries[0].1;
      var rest := SerializeFields(entries[1..], e).value;
      FieldsMembership(entries[1..], e, rest);
      assert entries == [(k0, v0)] + entries[1..];
      forall k, j ensures (k, j) in out <==>
        exists v :: (k, v) in entries && EmitEntry(k, v, e) == Success(Some(j))
      {
        if (k, j) in out && (k, j) !in rest {
          assert EmitEntry(k0, v0, e) == Success(Some(j)) && k == k0;
        }
        if exists v :: (k, v) in entries && EmitEntry(k, v, e) == Success(Some(j)) {
          var v :| (k, v) in entries && EmitEntry(k, v, e) == Success(Some(j));
          if (k, v) != (k0, v0) {
            assert (k, v) in entries[1..];
          }
        }
      }
    }
  }

  /** Excluded entries leave no trace: with distinct keys, an entry whose decision is to skip
      contributes no pair, not even a placeholder, under its key. */
  lemma ExcludedLeaveNoTrace(entries: Entries<Value>, e: Emitter, out: seq<(string, Json)>, k: string, v: Value)
    requires DistinctKeys(entries)
    requires SerializeFields(entries, e) == Success(out)
    requires (k, v) in entries && EmitEntry(k, v, e) == Success(None)
    ensures k !in KeysOf(out)
  {
    FieldsMembership(entries, e, out);
    forall n | 0 <= n < |out| ensures out[n].0 != k {
      assert out[n] in out;
      forall v' | (out[n].0, v') in entries ensures v' == v || out[n].0 != k {
        EntryIffLookup(entries, k, v);
        EntryIffLookup(entries, k, v');
      }
    }
  }

  /** The written object never repeats a key the map did not repeat. */
  lemma {:induction false} FieldsKeepKeysDistinct(entries: Entries<Value>, e: Emitter, out: seq<(string, Json)>)
    requires DistinctKeys(entries)
    requires SerializeFields(entries, e) == Success(out)
    ensures DistinctKeys(out)
  {
    if |entries| > 0 {
      TailKeepsKeysDistinct(entries);
      var rest := SerializeFields(entries[1..], e).value;
      FieldsKeepKeysDistinct(entries[1..], e, rest);
      if out != rest {
        var k0 := entries[0].0;
        assert out == [(k0, out[0].1)] + rest;
        SubsequenceMembers(KeysOf(rest), KeysOf(entries[1..]));
        forall i, j | 0 <= i < j < |out| ensures out[i].0 != out[j].0 {
          if i == 0 {
            assert out[j].0 == KeysOf(rest)[j - 1];
          } else {
            assert out[i] == rest[i - 1] && out[j] == rest[j - 1];
          }
        }
      }
    }
  }

  /** Under a content policy the map object holds exactly the kept entries, each with its value
      written as is (a box as its payload). */
  lemma PolicyMapContents(m: Entries<Value>, content: Option<Policy>, cfg: Config)
    ensures var r := SerializeMap(m, PolicyBinding(content), cfg);
      && r.Success?
      && forall k, j :: (k, j) in r.value.fields <==>
           exists v :: (k, v) in m && ShouldInclude(v, EffectivePolicy(content, cfg.writeNullMapValues))
                       && j == Serialized(v)
  {
    var p := EffectivePolicy(content, cfg.writeNullMapValues);
    PolicyFieldsSucceed(m, p);
    FieldsMembership(m, ByPolicy(p), SerializeFields(m, ByPolicy(p)).value);
  }

  /** `filterOutAllExcept(keep)` writes exactly the entries whose key is kept, values as is. */
  lemma FilterOutAllExceptContents(m: Entries<Value>, keep: set<string>, offset: Option<int32>)
    ensures var r := SerializeFields(m, ByFilter(FilterOutAllExcept(keep), offset));
      && r.Success?
      && (forall k :: k in KeysOf(r.value) ==> k in keep)
      && forall k, j :: (k, j) in r.value <==> exists v :: (k, v) in m && k in keep && j == Serialized(v)
  {
    var e := ByFilter(FilterOutAllExcept(keep), offset);
    FieldsSucceedIff(m, e);
    var out := SerializeFields(m, e).value;
    FieldsMembership(m, e, out);
    forall k | k in KeysOf(out) ensures k in keep {
      var n :| 0 <= n < |out| && KeysOf(out)[n] == k;
      assert (k, out[n].1) in out;
    }
  }

  /** What `MyMapFilter` makes of a whole map: the entry "a" alone, its integer shifted by the
      offset, or nothing when there is no "a"; a non-integer under "a" aborts. */
  function MyMapFilterExpected(a: Option<Value>, offset: Option<int32>): (r: Result<seq<(string, Json)>>) {
    match a
    case None => Success([])
    case Some(Int(i)) => Success([(OffsetKey, JNumber(Wrap32(offset.GetOr(0) as int + i as int)))])
    case Some(_) => Failure(FilterFailed(OffsetKey))
  }

  lemma {:induction false} MyMapFilterResult(m: Entries<Value>, offset: Option<int32>)
    requires DistinctKeys(m)
    ensures SerializeFields(m, ByFilter(MyMapFilter, offset)) == MyMapFilterExpected(Lookup(m, OffsetKey), offset)
  {
    if |m| > 0 {
      TailKeepsKeysDistinct(m);
      MyMapFilterResult(m[1..], offset);
      if m[0].0 == OffsetKey {
        assert Lookup(m[1..], OffsetKey).None?;
        assert SerializeFields(m[1..], ByFilter(MyMapFilter, offset)) == Success([]);
        if m[0].1.Int? {
          var j := JNumber(Wrap32(offset.GetOr(0) as int + m[0].1.i as int));
          assert EmitEntry(m[0].0, m[0].1, ByFilter(MyMapFilter, offset)) == Success(Some(j));
          assert [(m[0].0, j)] + [] == [(OffsetKey, j)];
        }
      }
    }
  }

  /** The global null flag only matters for null values: a map without nulls and without a
      declared policy is written the same whichever way the flag is set. */
  lemma NullFlagOnlyAffectsNulls(m: Entries<Value>, cfg: Config)
    requires forall i :: 0 <= i < |m| ==> m[i].1 != Null
    ensures SerializeMap(m, PolicyBinding(None), cfg.(writeNullMapValues := true))
         == SerializeMap(m, PolicyBinding(None), cfg.(writeNullMapValues := false))
  {
    FallbackPoliciesAgreeWithoutNulls(m);
  }

  /** The two policies the null flag chooses between agree on every map without nulls. */
  lemma {:induction false} FallbackPoliciesAgreeWithoutNulls(m: Entries<Value>)
    requires forall i :: 0 <= i < |m| ==> m[i].1 != Null
    ensures SerializeFields(m, ByPolicy(Always)) == SerializeFields(m, ByPolicy(NonNull))
  {
    if |m| > 0 {
      FallbackPoliciesAgreeWithoutNulls(m[1..]);
    }
  }

  /** A null entry without a declared policy is written, as a null, exactly when the flag is on. */
  lemma NullFlagDecidesNullEntries(m: Entries<Value>, k: string, cfg: Config)
    requires DistinctKeys(m) && (k, Null) in m
    ensures var r := SerializeMap(m, PolicyBinding(None), cfg);
      && r.Success?
      && ((k, JNull) in r.value.fields <==> cfg.writeNullMapValues)
      && (k in KeysOf(r.value.fields) <==> cfg.writeNullMapValues)
  {
    var p := EffectivePolicy(None, cfg.writeNullMapValues);
    var r := SerializeMap(m, PolicyBinding(None), cfg);
    PolicyMapContents(m, None, cfg);
    var out := r.value.fields;
    if cfg.writeNullMapValues {
      assert Serialized(Null) == JNull;
      assert (k, JNull) in out;
    } else {
      ExcludedLeaveNoTrace(m, ByPolicy(p), out, k, Null);
      forall n | 0 <= n < |out| ensures out[n] != (k, JNull) {
        assert KeysOf(out)[n] == out[n].0;
      }
    }
  }

  /** A stricter content policy writes a subsequence of what a laxer one writes. */
  lemma {:induction false} StricterPolicyWritesSubsequence(m: Entries<Value>, p: Policy, q: Policy)
    requires Strictness(p) <= Strictness(q)
    ensures var rq, rp := SerializeFields(m, ByPolicy(q)), SerializeFields(m, ByPolicy(p));
      rq.Success? && rp.Success? && IsSubsequence(rq.value, rp.value)
  {
    PolicyFieldsSucceed(m, p);
    PolicyFieldsSucceed(m, q);
    if |m| > 0 {
      PolicyFieldsSucceed(m[1..], p);
      PolicyFieldsSucceed(m[1..], q);
      StricterPolicyWritesSubsequence(m[1..], p, q);
      StricterPolicyKeepsLess(m[0].1, p, q);
    }
  }

  /** A map every entry of which is filtered out is still written, as the empty object. */
  lemma {:induction false} AllExcludedGivesEmptyObject(m: Entries<Value>, e: Emitter)
    requires forall i :: 0 <= i < |m| ==> EmitEntry(m[i].0, m[i].1, e) == Success(None)
    ensures SerializeFields(m, e) == Success([])
  {
    if |m| > 0 {
      AllExcludedGivesEmptyObject(m[1..], e);
    }
  }
}
