/**
 * The filterable index of the final revision (ServiceFabric.Extensions.Data.Indexing/
 * FilterableIndex.cs): a collection from filter value to the keys of the primary entries with
 * that value, optional substitution of null strings by `NAString`, a sorted exact lookup and
 * range queries whose bounds are each inclusive or exclusive.
 */
module FilterIndexes {
  import opened Wrappers
  import opened CollectionExtensions
  import opened Sorting
  import opened PostingLists
  import opened FilterValues
  import opened StateManagers

  /** `GetFilterValue`: the projected value, with the null substitution applied. */
  function FilterValueOf<V>(filter: FilterProjection<V>, useNaString: bool, filterType: FilterType, key: Key, value: V)
    : (r: FilterValue)
    ensures r == filter(key, value) || (filter(key, value).Null? && r == Str(NAString))
    ensures useNaString && filterType == StringType ==> !r.Null?
  {
    SubstituteNull(filter(key, value), useNaString, filterType)
  }

  /** The filter value of every primary entry. */
  ghost function Projected<V>(filter: FilterProjection<V>, useNaString: bool, filterType: FilterType, primary: map<Key, V>)
    : map<Key, FilterValue>
  {
    map k | k in primary :: FilterValueOf(filter, useNaString, filterType, k, primary[k])
  }

  class FilterableIndex<V> {
    const name: string
    const filter: FilterProjection<V>
    const useNaString: bool
    const filterType: FilterType
    /** The content of the index collection `_index`. */
    var store: Store<FilterValue>

    constructor (name: string, filter: FilterProjection<V>, useNaString: bool, filterType: FilterType)
      ensures this.name == name && this.filter == filter && this.useNaString == useNaString
      ensures this.filterType == filterType && store == map[]
    {
      this.name := name;
      this.filter := filter;
      this.useNaString := useNaString;
      this.filterType := filterType;
      store := map[];
    }

    /** The constructor's argument checks: a null name or projection is `ArgumentNullException`. */
    static method Create(name: Option<string>, filter: Option<FilterProjection<V>>, useNaString: bool, filterType: FilterType)
      returns (r: Result<FilterableIndex<V>>)
      ensures r.Err? <==> name.None? || filter.None?
      ensures r.Err? ==> r.error == ArgumentNull
      ensures r.Ok? ==> fresh(r.value) && r.value.name == name.value && r.value.filter == filter.value
      ensures r.Ok? ==> r.value.useNaString == useNaString && r.value.filterType == filterType
      ensures r.Ok? ==> r.value.store == map[]
    {
      if name.None? || filter.None? {
        return Err(ArgumentNull);
      }
      var index := new FilterableIndex(name.value, filter.value, useNaString, filterType);
      return Ok(index);
    }

    /** The name of this index's collection below `baseName`. */
    function IndexName(baseName: string): (r: string)
      ensures |baseName| + |name| < |r| && r[..|baseName|] == baseName && r[|r| - |name|..] == name
    {
      IndexCollectionName(baseName, "filter", name)
    }

    /** `GetFilterValue` of an entry. */
    function GetFilterValue(key: Key, value: V): (r: FilterValue)
      ensures r == filter(key, value) || (filter(key, value).Null? && r == Str(NAString))
      ensures useNaString && filterType == StringType ==> !r.Null?
    {
      FilterValueOf(filter, useNaString, filterType, key, value)
    }

    /**
     * `FilterAsync`: the keys filed under the (substituted) value, sorted ascending, or none when
     * the value has no entry. A null value left null is rejected by the store.
     */
    method Filter(f: FilterValue) returns (r: Result<seq<Key>>)
      ensures r.Err? <==> SubstituteNull(f, useNaString, filterType).Null?
      ensures r.Err? ==> r.error == ArgumentNull
      ensures r.Ok? ==> forall i, j :: 0 <= i < j < |r.value| ==> r.value[i] <= r.value[j]
      ensures r.Ok? ==> multiset(r.value) == multiset(Lookup(store, SubstituteNull(f, useNaString, filterType)))
    {
      var g := SubstituteNull(f, useNaString, filterType);
      if g.Null? {
        return Err(ArgumentNull);
      }
      var found := Lookup(store, g);
      var results := new Key[|found|](i requires 0 <= i < |found| => found[i]);
      assert results[..] == found;
      SortArray(results);
      return Ok(results[..]);
    }

    /**
     * `RangeFilterHelper`: the posting lists of the values the bounds select, concatenated in
     * ascending value order. A null start bound throws as soon as the predicate is applied to a
     * stored value.
     */
    method RangeFilterHelper(b: Bounds) returns (r: Result<seq<Key>>)
      ensures r.Err? <==> StartIsNull(b) && store != map[]
      ensures r.Err? ==> r.error == NullReference
      ensures r.Ok? ==> r.value == RangeResult(store, b)
    {
      if StartIsNull(b) && store != map[] {
        return Err(NullReference);
      }
      var ordered := EnumerateOrdered(store.Keys);
      assert forall v :: v in ordered ==> v in store;
      var keys: seq<Key> := [];
      for i := 0 to |ordered|
        invariant keys == Collect(store, ordered[..i], b)
      {
        var f := ordered[i];
        CollectSnoc(store, ordered, i, b);
        if Selects(b, f) {
          keys := keys + store[f];
        }
      }
      assert ordered[..|ordered|] == ordered;
      return Ok(keys);
    }

    /** `RangeFilterAsync`: both bounds, each inclusive or exclusive. */
    method RangeFilter(start: FilterValue, startType: RangeFilterType, end: FilterValue, endType: RangeFilterType)
      returns (r: Result<seq<Key>>)
      ensures r.Err? <==> start.Null? && store != map[]
      ensures r.Err? ==> r.error == NullReference
      ensures r.Ok? ==> r.value == RangeResult(store, Between(start, startType, end, endType))
    {
      r := RangeFilterHelper(Between(start, startType, end, endType));
    }

    /** `RangeToFilterAsync`: only the upper bound. */
    method RangeToFilter(end: FilterValue, endType: RangeFilterType) returns (r: Result<seq<Key>>)
      ensures r.Ok? && r.value == RangeResult(store, UpTo(end, endType))
    {
      r := RangeFilterHelper(UpTo(end, endType));
    }

    /** `RangeFromFilterAsync`: only the lower bound. */
    method RangeFromFilter(start: FilterValue, startType: RangeFilterType) returns (r: Result<seq<Key>>)
      ensures r.Err? <==> start.Null? && store != map[]
      ensures r.Err? ==> r.error == NullReference
      ensures r.Ok? ==> r.value == RangeResult(store, From(start, startType))
    {
      r := RangeFilterHelper(From(start, startType));
    }

    /** `CreateEnumerableAsync` in ordered mode: the distinct filter values, ascending. */
    method CreateEnumerable() returns (values: seq<FilterValue>)
      ensures values == OrderedValues(store.Keys)
    {
      values := EnumerateOrdered(store.Keys);
    }

    /** The private `AddAsync`: `AddOrUpdateAsync` with `[key]` or `CopyAndAdd(key)`. */
    method AddValue(key: Key, f: FilterValue) returns (r: Result<()>)
      modifies this
      ensures r.Ok? <==> AddFilter(old(store), key, f).Ok?
      ensures r.Err? ==> r.error == ArgumentNull && store == old(store)
      ensures r.Ok? ==> store == AddFilter(old(store), key, f).value
    {
      if f.Null? {
        return Err(ArgumentNull);
      }
      if f in store {
        store := store[f := Appended(store[f], key)];
      } else {
        store := store[f := [key]];
      }
      return Ok(());
    }

    /**
     * The private `RemoveAsync`: a missing entry, or a list without the key, is
     * `KeyNotFoundException`; a list left empty drops the entry.
     */
    method RemoveValue(key: Key, f: FilterValue) returns (r: Result<()>)
      modifies this
      ensures r.Ok? <==> RemoveFilter(old(store), key, f).Ok?
      ensures r.Err? ==> r.error == RemoveFilter(old(store), key, f).error && store == old(store)
      ensures r.Ok? ==> store == RemoveFilter(old(store), key, f).value
    {
      if f.Null? {
        return Err(ArgumentNull);
      }
      if f !in store {
        return Err(KeyNotFound);
      }
      var updated := Removed(store[f], key);
      if updated.Err? {
        return Err(updated.error);
      }
      if |updated.value| > 0 {
        store := store[f := updated.value];
      } else {
        store := store - {f};
      }
      return Ok(());
    }

    /** The add hook: `key` goes under the entry's filter value. */
    method OnAdd(key: Key, value: V) returns (r: Result<()>)
      modifies this
      ensures r.Ok? <==> AddFilter(old(store), key, GetFilterValue(key, value)).Ok?
      ensures r.Err? ==> r.error == ArgumentNull && store == old(store)
      ensures r.Ok? ==> store == AddFilter(old(store), key, GetFilterValue(key, value)).value
    {
      r := AddValue(key, GetFilterValue(key, value));
    }

    /** The update hook: nothing when the filter value is unchanged, else remove then add. */
    method OnUpdate(key: Key, oldValue: V, newValue: V) returns (r: Result<()>)
      modifies this
      ensures r.Ok? <==> UpdateFilter(old(store), key, GetFilterValue(key, oldValue), GetFilterValue(key, newValue)).Ok?
      ensures r.Err? ==>
                r.error == UpdateFilter(old(store), key, GetFilterValue(key, oldValue), GetFilterValue(key, newValue)).error
      ensures r.Ok? ==>
                store == UpdateFilter(old(store), key, GetFilterValue(key, oldValue), GetFilterValue(key, newValue)).value
    {
      var oldFilter := GetFilterValue(key, oldValue);
      var newFilter := GetFilterValue(key, newValue);
      if oldFilter == newFilter {
        return Ok(());
      }
      r := RemoveValue(key, oldFilter);
      if r.Err? {
        return;
      }
      r := AddValue(key, newFilter);
    }

    /** The remove hook: `key` comes out from under the entry's filter value. */
    method OnRemove(key: Key, value: V) returns (r: Result<()>)
      modifies this
      ensures r.Ok? <==> RemoveFilter(old(store), key, GetFilterValue(key, value)).Ok?
      ensures r.Err? ==> r.error == RemoveFilter(old(store), key, GetFilterValue(key, value)).error
      ensures r.Ok? ==> store == RemoveFilter(old(store), key, GetFilterValue(key, value)).value
    {
      r := RemoveValue(key, GetFilterValue(key, value));
    }

    /** The clear hook: the collection is emptied. */
    method OnClear()
      modifies this
      ensures store == map[]
    {
      store := map[];
    }

    /** `TryGetIndexAsync`: binds to the collection when the registry holds it. */
    method TryGetIndex(manager: StateManager, baseName: string) returns (found: bool)
      ensures found <==> IndexName(baseName) in manager.names
    {
      found := IndexName(baseName) in manager.names;
    }

    /**
     * `GetOrAddIndexAsync`: the registry holds the collection afterwards; a collection created
     * here starts empty.
     */
    method GetOrAddIndex(manager: StateManager, baseName: string)
      modifies manager, this
      ensures manager.names == old(manager.names) + {IndexName(baseName)}
      ensures store == if IndexName(baseName) in old(manager.names) then old(store) else map[]
    {
      if IndexName(baseName) !in manager.names {
        store := map[];
      }
      manager.names := manager.names + {IndexName(baseName)};
    }

    /** `RemoveIndexAsync`: the registry drops the collection and its content is gone. */
    method RemoveIndex(manager: StateManager, baseName: string)
      modifies manager, this
      ensures manager.names == old(manager.names) - {IndexName(baseName)}
      ensures store == map[]
    {
      manager.names := manager.names - {IndexName(baseName)};
      store := map[];
    }
  }

  /**
   * On a coherent index, `FilterAsync` finds exactly the entries whose filter value, after the
   * substitution, equals the query's.
   */
  lemma FilterFinds<V>(store: Store<FilterValue>, filter: FilterProjection<V>, useNaString: bool, filterType: FilterType,
                       primary: map<Key, V>, f: FilterValue, k: Key)
    requires Coherent(store, Expected(Projected(filter, useNaString, filterType, primary)))
    ensures k in Lookup(store, SubstituteNull(f, useNaString, filterType)) <==>
              k in primary && FilterValueOf(filter, useNaString, filterType, k, primary[k]) == SubstituteNull(f, useNaString, filterType)
  {
    LookupCoherent(store, Projected(filter, useNaString, filterType, primary), SubstituteNull(f, useNaString, filterType), k);
  }

  /**
   * With substitution on a string index, querying for null finds the entries whose projection
   * is null, and also those whose projection is the sentinel string itself.
   */
  lemma FilterNullFindsNullEntries<V>(store: Store<FilterValue>, filter: FilterProjection<V>, primary: map<Key, V>, k: Key)
    requires Coherent(store, Expected(Projected(filter, true, StringType, primary)))
    ensures k in Lookup(store, SubstituteNull(Null, true, StringType)) <==>
              k in primary && (filter(k, primary[k]) == Null || filter(k, primary[k]) == Str(NAString))
  {
    FilterFinds(store, filter, true, StringType, primary, Null, k);
  }

  /** The add hook keeps the index coherent with the primary map, or rejects a null value. */
  lemma OnAddCoherent<V>(store: Store<FilterValue>, filter: FilterProjection<V>, useNaString: bool, filterType: FilterType,
                         primary: map<Key, V>, key: Key, value: V)
    requires Coherent(store, Expected(Projected(filter, useNaString, filterType, primary))) && key !in primary
    ensures AddFilter(store, key, FilterValueOf(filter, useNaString, filterType, key, value)).Err? <==>
              FilterValueOf(filter, useNaString, filterType, key, value).Null?
    ensures AddFilter(store, key, FilterValueOf(filter, useNaString, filterType, key, value)).Ok? ==>
              Coherent(AddFilter(store, key, FilterValueOf(filter, useNaString, filterType, key, value)).value,
                       Expected(Projected(filter, useNaString, filterType, primary[key := value])))
  {
    var f := FilterValueOf(filter, useNaString, filterType, key, value);
    if !f.Null? {
      var values := Projected(filter, useNaString, filterType, primary);
      AddFilterCoherent(store, values, key, f);
      assert values[key := f] == Projected(filter, useNaString, filterType, primary[key := value]);
    }
  }

  /**
   * The update hook keeps the index coherent with the primary map when the old and new filter
   * values are not null.
   */
  lemma OnUpdateCoherent<V>(store: Store<FilterValue>, filter: FilterProjection<V>, useNaString: bool, filterType: FilterType,
                            primary: map<Key, V>, key: Key, newValue: V)
    requires Coherent(store, Expected(Projected(filter, useNaString, filterType, primary))) && key in primary
    requires !FilterValueOf(filter, useNaString, filterType, key, primary[key]).Null?
    requires !FilterValueOf(filter, useNaString, filterType, key, newValue).Null?
    ensures UpdateFilter(store, key, FilterValueOf(filter, useNaString, filterType, key, primary[key]),
                         FilterValueOf(filter, useNaString, filterType, key, newValue)).Ok?
    ensures Coherent(UpdateFilter(store, key, FilterValueOf(filter, useNaString, filterType, key, primary[key]),
                                  FilterValueOf(filter, useNaString, filterType, key, newValue)).value,
                     Expected(Projected(filter, useNaString, filterType, primary[key := newValue])))
  {
    var values := Projected(filter, useNaString, filterType, primary);
    var f := FilterValueOf(filter, useNaString, filterType, key, newValue);
    UpdateFilterCoherent(store, values, key, f);
    assert values[key := f] == Projected(filter, useNaString, filterType, primary[key := newValue]);
  }

  /**
   * The remove hook keeps the index coherent with the primary map when the removed entry's
   * filter value is not null.
   */
  lemma OnRemoveCoherent<V>(store: Store<FilterValue>, filter: FilterProjection<V>, useNaString: bool, filterType: FilterType,
                            primary: map<Key, V>, key: Key)
    requires Coherent(store, Expected(Projected(filter, useNaString, filterType, primary))) && key in primary
    requires !FilterValueOf(filter, useNaString, filterType, key, primary[key]).Null?
    ensures RemoveFilter(store, key, FilterValueOf(filter, useNaString, filterType, key, primary[key])).Ok?
    ensures Coherent(RemoveFilter(store, key, FilterValueOf(filter, useNaString, filterType, key, primary[key])).value,
                     Expected(Projected(filter, useNaString, filterType, primary - {key})))
  {
    var values := Projected(filter, useNaString, filterType, primary);
    RemoveFilterCoherent(store, values, key);
    assert values - {key} == Projected(filter, useNaString, filterType, primary - {key});
  }

  /** `Collect` over three values, unfolded. */
  lemma CollectThree(store: Store<FilterValue>, u: FilterValue, v: FilterValue, w: FilterValue, b: Bounds)
    requires u in store && v in store && w in store
    ensures Collect(store, [u, v, w], b) ==
              (if Selects(b, u) then store[u] else []) + (if Selects(b, v) then store[v] else []) +
              (if Selects(b, w) then store[w] else [])
  {
    assert [u, v, w][..2] == [u, v] && [u, v][..1] == [u] && [u][..0] == [];
    assert Collect(store, [u], b) == if Selects(b, u) then store[u] else [];
    assert Collect(store, [u, v], b) == Collect(store, [u], b) + (if Selects(b, v) then store[v] else []);
  }

  /** The three ages enumerate in ascending order. */
  lemma AgesOrdered(store: Store<FilterValue>)
    requires store.Keys == {Int(25), Int(32), Int(35)}
    ensures OrderedValues(store.Keys) == [Int(25), Int(32), Int(35)]
  {
    LessIsStrictTotalOrder();
    StrictlySortedUnique(OrderedValues(store.Keys), [Int(25), Int(32), Int(35)], Less);
  }

  /** A range over the three ages, unfolded. */
  lemma AgesRange(store: Store<FilterValue>, b: Bounds)
    requires store == map[Int(25) := [2], Int(32) := [1], Int(35) := [3]]
    ensures RangeResult(store, b) ==
              (if Selects(b, Int(25)) then [2] else []) + (if Selects(b, Int(32)) then [1] else []) +
              (if Selects(b, Int(35)) then [3] else [])
  {
    AgesOrdered(store);
    CollectThree(store, Int(25), Int(32), Int(35), b);
  }

  /**
   * The ages of the range tests: Jane (key 2) is 25, John (key 1) is 32 and Mary (key 3) is 35.
   * A range over every age lists the keys in ascending age order; from 30 to 35 is John and Mary.
   */
  lemma AgesRangeExample(store: Store<FilterValue>)
    requires store == map[Int(25) := [2], Int(32) := [1], Int(35) := [3]]
    ensures RangeResult(store, Between(Int(0), Inclusive, Int(100), Inclusive)) == [2, 1, 3]
    ensures RangeResult(store, Between(Int(30), Inclusive, Int(35), Inclusive)) == [1, 3]
  {
    var b1 := Between(Int(0), Inclusive, Int(100), Inclusive);
    assert Selects(b1, Int(25)) && Selects(b1, Int(32)) && Selects(b1, Int(35));
    AgesRange(store, b1);
    assert [2] + [1] + [3] == [2, 1, 3];
    var b2 := Between(Int(30), Inclusive, Int(35), Inclusive);
    assert !Selects(b2, Int(25)) && Selects(b2, Int(32)) && Selects(b2, Int(35));
    AgesRange(store, b2);
    assert [] + [1] + [3] == [1, 3];
  }

  /**
   * The narrow range tests: strictly between 30 and 35 is John alone, and a range below every
   * age is empty.
   */
  lemma AgesNarrowRangeExample(store: Store<FilterValue>)
    requires store == map[Int(25) := [2], Int(32) := [1], Int(35) := [3]]
    ensures RangeResult(store, Between(Int(30), Exclusive, Int(35), Exclusive)) == [1]
    ensures RangeResult(store, Between(Int(0), Inclusive, Int(10), Inclusive)) == []
  {
    var b3 := Between(Int(30), Exclusive, Int(35), Exclusive);
    assert !Selects(b3, Int(25)) && Selects(b3, Int(32)) && !Selects(b3, Int(35));
    AgesRange(store, b3);
    assert [] + [1] + [] == [1];
    var b4 := Between(Int(0), Inclusive, Int(10), Inclusive);
    assert !Selects(b4, Int(25)) && !Selects(b4, Int(32)) && !Selects(b4, Int(35));
    AgesRange(store, b4);
  }

  /** The open-ended range tests: below John's age is Jane alone, from John's age on John and Mary. */
  lemma AgesOpenRangeExample(store: Store<FilterValue>)
    requires store == map[Int(25) := [2], Int(32) := [1], Int(35) := [3]]
    ensures RangeResult(store, UpTo(Int(32), Exclusive)) == [2]
    ensures RangeResult(store, From(Int(32), Inclusive)) == [1, 3]
  {
    var b5 := UpTo(Int(32), Exclusive);
    assert Selects(b5, Int(25)) && !Selects(b5, Int(32)) && !Selects(b5, Int(35));
    AgesRange(store, b5);
    assert [2] + [] + [] == [2];
    var b6 := From(Int(32), Inclusive);
    assert !Selects(b6, Int(25)) && Selects(b6, Int(32)) && Selects(b6, Int(35));
    AgesRange(store, b6);
    assert [] + [1] + [3] == [1, 3];
  }
}
