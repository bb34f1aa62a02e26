/**
 * The earlier filterable index (Microsoft.ServiceFabric.Data.Indexing/FilterableIndex.cs): the
 * same posting lists as the final revision, without null substitution, with an unsorted exact
 * lookup and with a range query inclusive at both ends.
 */
module LegacyFilterIndexes {
  import opened Wrappers
  import opened CollectionExtensions
  import opened PostingLists
  import opened FilterValues
  import opened FilterIndexes
  import opened StateManagers

  /** The filter value of every primary entry, as the projection gives it. */
  ghost function LegacyProjected<V>(filter: FilterProjection<V>, primary: map<Key, V>): map<Key, FilterValue> {
    map k | k in primary :: filter(k, primary[k])
  }

  class LegacyFilterableIndex<V> {
    const name: string
    const filter: FilterProjection<V>
    /** The content of the index collection `_index`. */
    var store: Store<FilterValue>

    constructor (name: string, filter: FilterProjection<V>)
      ensures this.name == name && this.filter == filter && store == map[]
    {
      this.name := name;
      this.filter := filter;
      store := map[];
    }

    /** The constructor's argument checks: a null name or filter is `ArgumentNullException`. */
    static method Create(name: Option<string>, filter: Option<FilterProjection<V>>) returns (r: Result<LegacyFilterableIndex<V>>)
      ensures r.Err? <==> name.None? || filter.None?
      ensures r.Err? ==> r.error == ArgumentNull
      ensures r.Ok? ==> fresh(r.value) && r.value.name == name.value && r.value.filter == filter.value
      ensures r.Ok? ==> r.value.store == map[]
    {
      if name.None? || filter.None? {
        return Err(ArgumentNull);
      }
      var index := new LegacyFilterableIndex(name.value, filter.value);
      return Ok(index);
    }

    /** `GetIndexName`: `filter/<name>` below the base name. */
    function IndexName(baseName: string): (r: string)
      ensures |baseName| + |name| < |r| && r[..|baseName|] == baseName && r[|r| - |name|..] == name
    {
      IndexCollectionName(baseName, "filter", name)
    }

    /**
     * `FilterAsync`: the stored posting list as it is (not sorted), or none; the store rejects
     * the null value.
     */
    method Filter(f: FilterValue) returns (r: Result<seq<Key>>)
      ensures r.Err? <==> f.Null?
      ensures r.Err? ==> r.error == ArgumentNull
      ensures r.Ok? ==> r.value == Lookup(store, f)
    {
      if f.Null? {
        return Err(ArgumentNull);
      }
      if f in store {
        return Ok(store[f]);
      }
      return Ok([]);
    }

    /**
     * `RangeFilterAsync`: the posting lists of the values `f` with `start <= f <= end`,
     * concatenated in ascending value order. A null start throws once a stored value is tested.
     */
    method RangeFilter(start: FilterValue, end: FilterValue) returns (r: Result<seq<Key>>)
      ensures r.Err? <==> start.Null? && store != map[]
      ensures r.Err? ==> r.error == NullReference
      ensures r.Ok? ==> r.value == RangeResult(store, Between(start, Inclusive, end, Inclusive))
    {
      if start.Null? && store != map[] {
        return Err(NullReference);
      }
      var b := Between(start, Inclusive, end, Inclusive);
      var ordered := EnumerateOrdered(store.Keys);
      assert forall v :: v in ordered ==> v in store;
      var keys: seq<Key> := [];
      for i := 0 to |ordered|
        invariant keys == Collect(store, ordered[..i], b)
      {
        var f := ordered[i];
        CollectSnoc(store, ordered, i, b);
        assert Selects(b, f) <==> LessOrEqual(start, f) && LessOrEqual(f, end);
        if LessOrEqual(start, f) && LessOrEqual(f, end) {
          keys := keys + store[f];
        }
      }
      assert ordered[..|ordered|] == ordered;
      return Ok(keys);
    }

    /** The private `AddAsync`: `[key]` for a new value, `CopyAndAdd(key)` otherwise. */
    method AddValue(key: Key, f: FilterValue) returns (r: Result<()>)
      modifies this
      ensures r.Ok? <==> AddFilter(old(store), key, f).Ok?
      ensures r.Err? ==> r.error == ArgumentNull && store == old(store)
      ensures r.Ok? ==> store == AddFilter(old(store), key, f).value
    {
      if f.Null? {
        return Err(ArgumentNull);
      }
      if f in store {
        store := store[f := Appended(store[f], key)];
      } else {
        store := store[f := [key]];
      }
      return Ok(());
    }

    /**
     * The private `RemoveAsync`: a missing entry or key is `KeyNotFoundException`; a list left
     * empty drops the entry.
     */
    method RemoveValue(key: Key, f: FilterValue) returns (r: Result<()>)
      modifies this
      ensures r.Ok? <==> RemoveFilter(old(store), key, f).Ok?
      ensures r.Err? ==> r.error == RemoveFilter(old(store), key, f).error && store == old(store)
      ensures r.Ok? ==> store == RemoveFilter(old(store), key, f).value
    {
      if f.Null? {
        return Err(ArgumentNull);
      }
      if f !in store {
        return Err(KeyNotFound);
      }
      var updated := Removed(store[f], key);
      if updated.Err? {
        return Err(updated.error);
      }
      if |updated.value| > 0 {
        store := store[f := updated.value];
      } else {
        store := store - {f};
      }
      return Ok(());
    }

    /** The add hook: `key` goes under the projected value. */
    method OnAdd(key: Key, value: V) returns (r: Result<()>)
      modifies this
      ensures r.Ok? <==> AddFilter(old(store), key, filter(key, value)).Ok?
      ensures r.Err? ==> r.error == ArgumentNull && store == old(store)
      ensures r.Ok? ==> store == AddFilter(old(store), key, filter(key, value)).value
    {
      r := AddValue(key, filter(key, value));
    }

    /** The update hook: nothing when the projection is unchanged, else remove then add. */
    method OnUpdate(key: Key, oldValue: V, newValue: V) returns (r: Result<()>)
      modifies this
      ensures r.Ok? <==> UpdateFilter(old(store), key, filter(key, oldValue), filter(key, newValue)).Ok?
      ensures r.Err? ==> r.error == UpdateFilter(old(store), key, filter(key, oldValue), filter(key, newValue)).error
      ensures r.Ok? ==> store == UpdateFilter(old(store), key, filter(key, oldValue), filter(key, newValue)).value
    {
      var oldFilter := filter(key, oldValue);
      var newFilter := filter(key, newValue);
      if oldFilter == newFilter {
        return Ok(());
      }
      r := RemoveValue(key, oldFilter);
      if r.Err? {
        return;
      }
      r := AddValue(key, newFilter);
    }

    /** The remove hook: `key` comes out from under the projected value. */
    method OnRemove(key: Key, value: V) returns (r: Result<()>)
      modifies this
      ensures r.Ok? <==> RemoveFilter(old(store), key, filter(key, value)).Ok?
      ensures r.Err? ==> r.error == RemoveFilter(old(store), key, filter(key, value)).error
      ensures r.Ok? ==> store == RemoveFilter(old(store), key, filter(key, value)).value
    {
      r := RemoveValue(key, filter(key, value));
    }

    /** The clear hook: the collection is emptied. */
    method OnClear()
      modifies this
      ensures store == map[]
    {
      store := map[];
    }

    /** `TryGetIndexAsync`: binds to the collection when the registry holds it. */
    method TryGetIndex(manager: StateManager, baseName: string) returns (found: bool)
      ensures found <==> IndexName(baseName) in manager.names
    {
      found := IndexName(baseName) in manager.names;
    }

    /** `GetOrAddIndexAsync`: the registry holds the collection; a new one starts empty. */
    method GetOrAddIndex(manager: StateManager, baseName: string)
      modifies manager, this
      ensures manager.names == old(manager.names) + {IndexName(baseName)}
      ensures store == if IndexName(baseName) in old(manager.names) then old(store) else map[]
    {
      if IndexName(baseName) !in manager.names {
        store := map[];
      }
      manager.names := manager.names + {IndexName(baseName)};
    }

    /** `RemoveIndexAsync`: the registry drops the collection and its content is gone. */
    method RemoveIndex(manager: StateManager, baseName: string)
      modifies manager, this
      ensures manager.names == old(manager.names) - {IndexName(baseName)}
      ensures store == map[]
    {
      manager.names := manager.names - {IndexName(baseName)};
      store := map[];
    }
  }

  /**
   * The legacy index holds what the final revision holds with substitution off: its projection
   * is the final revision's with `useNaString` false, whatever the filter type.
   */
  lemma LegacyIsFinalWithoutSubstitution<V>(filter: FilterProjection<V>, filterType: FilterType, primary: map<Key, V>)
    ensures LegacyProjected(filter, primary) == Projected(filter, false, filterType, primary)
  {
    var a := LegacyProjected(filter, primary);
    var b := Projected(filter, false, filterType, primary);
    assert a.Keys == b.Keys;
    forall k | k in b ensures a[k] == b[k] {}
  }

  /**
   * The legacy range selects exactly the stored values between the bounds, both included, and
   * agrees with the final revision's range whose two bounds are inclusive.
   */
  lemma LegacyRangeMembers(store: Store<FilterValue>, start: FilterValue, end: FilterValue, k: Key)
    ensures k in RangeResult(store, Between(start, Inclusive, end, Inclusive)) <==>
              exists f :: f in store && LessOrEqual(start, f) && LessOrEqual(f, end) && k in store[f]
  {
    RangeMembers(store, Between(start, Inclusive, end, Inclusive), k);
  }

  /** On a coherent legacy index, `FilterAsync` finds exactly the entries projected to `f`. */
  lemma LegacyFilterFinds<V>(store: Store<FilterValue>, filter: FilterProjection<V>, primary: map<Key, V>, f: FilterValue, k: Key)
    requires Coherent(store, Expected(LegacyProjected(filter, primary)))
    ensures k in Lookup(store, f) <==> k in primary && filter(k, primary[k]) == f
  {
    LookupCoherent(store, LegacyProjected(filter, primary), f, k);
  }
}
