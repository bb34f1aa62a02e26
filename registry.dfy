/**
 * The lifecycle of an indexed dictionary in the state manager's registry: the primary
 * dictionary and one collection per declared index are created, bound or removed together.
 * The index collections are named under a base derived from the dictionary's name.
 */
module Registry {
  import opened Wrappers
  import opened StateManagers
  import opened SearchIndexes
  import opened FilterIndexes
  import opened Fetch
  import opened IndexedDictionaries

  const Scheme: string := "index:/"

  /** `name.TrimEnd('/')`: the name without its trailing slashes. */
  function TrimSlashes(name: string): (r: string)
    ensures |r| <= |name| && r == name[..|r|]
    ensures r == [] || r[|r| - 1] != '/'
    ensures forall i :: |r| <= i < |name| ==> name[i] == '/'
  {
    if name == [] || name[|name| - 1] != '/' then name
    else TrimSlashes(name[..|name| - 1])
  }

  /**
   * `GetBaseIndexUri`: the scheme, the name without trailing slashes, and one slash, so that
   * the index names can be appended to it.
   */
  function BaseIndexName(name: string): (r: string)
    ensures |r| == |Scheme| + |TrimSlashes(name)| + 1
    ensures r[..|Scheme|] == Scheme && r[|r| - 1] == '/'
    ensures r[|Scheme|..|r| - 1] == TrimSlashes(name)
  {
    Scheme + TrimSlashes(name) + "/"
  }

  /** A collection name, modelled by its absolute path. */
  datatype Uri = Uri(absolutePath: string)

  /** `GetBaseIndexUri(Uri)`: the base of the Uri's path. */
  function BaseIndexUri(name: Uri): (r: string)
    ensures r == BaseIndexName(name.absolutePath)
    ensures r[..|Scheme|] == Scheme && r[|r| - 1] == '/'
  {
    BaseIndexName(name.absolutePath)
  }

  /** Trailing slashes make no difference to the base. */
  lemma {:induction false} BaseIndexNameIgnoresTrailingSlash(name: string)
    ensures BaseIndexName(name + "/") == BaseIndexName(name)
  {
    assert (name + "/")[..|name + "/"| - 1] == name;
  }

  /** Trimming twice changes nothing. */
  lemma TrimSlashesIdempotent(name: string)
    ensures TrimSlashes(TrimSlashes(name)) == TrimSlashes(name)
  {
  }

  /** When the name is not only slashes, the base ends in exactly one slash. */
  lemma BaseIndexNameOneSlash(name: string)
    requires exists i :: 0 <= i < |name| && name[i] != '/'
    ensures var r := BaseIndexName(name); |r| >= 2 && r[|r| - 1] == '/' && r[|r| - 2] != '/'
  {
    var r := BaseIndexName(name);
    var t := TrimSlashes(name);
    var i :| 0 <= i < |name| && name[i] != '/';
    assert i < |t|;
    assert r[|r| - 2] == t[|t| - 1];
  }

  /** The base of a name made only of slashes, the empty name included, ends in two of them. */
  lemma BaseIndexNameOfSlashes(name: string)
    requires forall i :: 0 <= i < |name| ==> name[i] == '/'
    ensures BaseIndexName(name) == "index://"
  {
    assert TrimSlashes(name) == [];
  }

  /** The name of an index's collection under a base (`GetIndexName`). */
  function StoreName<V>(x: Index<V>, baseName: string): string {
    match x
    case FilterIdx(f) => f.IndexName(baseName)
    case SearchIdx(s) => s.IndexName(baseName)
  }

  /** An index's collection extends the base name and ends in the index's own name. */
  lemma StoreNameShape<V>(x: Index<V>, baseName: string)
    ensures StoreName(x, baseName)[..|baseName|] == baseName
    ensures StoreName(x, baseName)[|baseName| + |"filter/"|..] == x.Name()
  {
  }


  /** The names of the collections of the declared indexes. */
  function StoreNames<V>(xs: seq<Index<V>>, baseName: string): set<string>
    decreases |xs|
  {
    if xs == [] then {} else StoreNames(xs[..|xs| - 1], baseName) + {StoreName(xs[|xs| - 1], baseName)}
  }

  /** One more index adds the name of its collection. */
  lemma StoreNamesSnoc<V>(xs: seq<Index<V>>, i: nat, baseName: string)
    requires i < |xs|
    ensures StoreNames(xs[..i + 1], baseName) == StoreNames(xs[..i], baseName) + {StoreName(xs[i], baseName)}
  {
    assert xs[..i + 1][..i] == xs[..i];
  }

  /** The registry holds the declared indexes' collections when it holds each one's. */
  lemma {:induction false} StoreNamesWithin<V>(xs: seq<Index<V>>, baseName: string, names: set<string>)
    ensures StoreNames(xs, baseName) <= names <==> forall i :: 0 <= i < |xs| ==> StoreName(xs[i], baseName) in names
    decreases |xs|
  {
    if xs != [] {
      var init := xs[..|xs| - 1];
      StoreNamesWithin(init, baseName, names);
      assert forall i :: 0 <= i < |init| ==> xs[i] == init[i];
    }
  }

  /**
   * Two indexes share a collection only when they are of one kind and have one name: a
   * filterable and a searchable index never collide.
   */
  lemma StoreNameInjective<V>(x: Index<V>, y: Index<V>, baseName: string)
    ensures StoreName(x, baseName) == StoreName(y, baseName) <==> x.FilterIdx? == y.FilterIdx? && x.Name() == y.Name()
  {
    var ka := if x.FilterIdx? then "filter" else "search";
    var kb := if y.FilterIdx? then "filter" else "search";
    var a, b := StoreName(x, baseName), StoreName(y, baseName);
    assert a == IndexCollectionName(baseName, ka, x.Name()) && b == IndexCollectionName(baseName, kb, y.Name());
    if a == b {
      assert ka + "/" == a[|baseName|..|baseName| + 7] == b[|baseName|..|baseName| + 7] == kb + "/";
      assert ka == (ka + "/")[..6] == (kb + "/")[..6] == kb;
      assert a[|baseName| + 7..] == b[|baseName| + 7..];
    }
  }

  /** An index collection never takes the primary's name unless that name starts with the scheme. */
  lemma StoreNameIsNotPrimary<V>(x: Index<V>, name: string)
    requires |name| < |Scheme| || name[..|Scheme|] != Scheme
    ensures StoreName(x, BaseIndexName(name)) != name
  {
    var b := BaseIndexName(name);
    var s := StoreName(x, b);
    assert s[..|Scheme|] == s[..|b|][..|Scheme|] == Scheme;
  }

  /**
   * A dictionary named "test" with one filterable index "index" occupies two collections: the
   * primary and "index:/test/filter/index".
   */
  lemma OneIndexTwoCollections<V>(f: FilterableIndex<V>)
    requires f.name == "index"
    ensures StoreName(FilterIdx(f), BaseIndexName("test")) == "index:/test/filter/index"
    ensures |{"test"} + StoreNames([FilterIdx(f)], BaseIndexName("test"))| == 2
  {
    assert TrimSlashes("test") == "test";
    assert BaseIndexName("test") == "index:/test/";
    var n := StoreName(FilterIdx(f), "index:/test/");
    assert n == "index:/test/filter/index";
    assert [FilterIdx(f)][..0] == [];
    assert "test" != n;
  }

  /** The objects of the declared indexes. */
  ghost function IndexObjects<V>(xs: seq<Index<V>>): set<object> {
    set i | 0 <= i < |xs| :: xs[i].Obj()
  }

  /** The contents of the declared indexes, in declaration order. */
  ghost function IndexContents<V>(xs: seq<Index<V>>): (cs: seq<Content>)
    reads IndexObjects(xs)
    ensures |cs| == |xs| && forall i :: 0 <= i < |xs| ==> cs[i] == ContentOf(xs[i])
  {
    seq(|xs|, i requires 0 <= i < |xs| reads IndexObjects(xs) => ContentOf(xs[i]))
  }

  /** The content of a new or removed index collection: empty, of the index's kind. */
  function EmptyContent<V>(x: Index<V>): (c: Content)
    ensures Matches(x, c) && c in {FilterContent(map[]), SearchContent(map[])}
  {
    if x.FilterIdx? then FilterContent(map[]) else SearchContent(map[])
  }

  /** Empty index collections are coherent with an empty primary dictionary. */
  lemma EmptyIndexesCoherent<V>(xs: seq<Index<V>>, cs: seq<Content>)
    requires |cs| == |xs| && forall i :: 0 <= i < |xs| ==> cs[i] == EmptyContent(xs[i])
    ensures AllCoherent(xs, cs, map[])
  {
    NotifyClearCoherent(xs, cs);
    var es := Notify(xs, cs, ClearHook).value;
    assert es == cs;
  }

  /** `GetOrAddIndexAsync` of one index. */
  method GetOrAddStore<V>(x: Index<V>, manager: StateManager, baseName: string)
    modifies manager, x.Obj()
    ensures manager.names == old(manager.names) + {StoreName(x, baseName)}
    ensures ContentOf(x) == if StoreName(x, baseName) in old(manager.names) then old(ContentOf(x)) else EmptyContent(x)
  {
    match x
    case FilterIdx(f) => f.GetOrAddIndex(manager, baseName);
    case SearchIdx(s) => s.GetOrAddIndex(manager, baseName);
  }

  /** `TryGetIndexAsync` of one index. */
  method TryGetStore<V>(x: Index<V>, manager: StateManager, baseName: string) returns (found: bool)
    ensures found <==> StoreName(x, baseName) in manager.names
  {
    match x
    case FilterIdx(f) => found := f.TryGetIndex(manager, baseName);
    case SearchIdx(s) => found := s.TryGetIndex(manager, baseName);
  }

  /** `RemoveIndexAsync` of one index. */
  method RemoveStore<V>(x: Index<V>, manager: StateManager, baseName: string)
    modifies manager, x.Obj()
    ensures manager.names == old(manager.names) - {StoreName(x, baseName)}
    ensures ContentOf(x) == EmptyContent(x)
  {
    match x
    case FilterIdx(f) => f.RemoveIndex(manager, baseName);
    case SearchIdx(s) => s.RemoveIndex(manager, baseName);
  }

  /** A primary dictionary is never one of the index objects: the types keep them apart. */
  lemma PrimaryIsNoIndex<V>(primary: PrimaryStore<V>, indexes: seq<Index<V>>)
    ensures primary !in IndexObjects(indexes)
  {
    forall i | 0 <= i < |indexes| ensures primary != indexes[i].Obj() {
      if primary == indexes[i].Obj() {
        assert false;
      }
    }
  }

  /** One step of the loop in GetOrAddIndexes: opens the collection of the i-th index and leaves the others alone. */
  method GetOrAddStoreAt<V>(manager: StateManager, baseName: string, indexes: seq<Index<V>>, i: nat)
    requires i < |indexes|
    modifies manager, indexes[i].Obj()
    ensures manager.names == old(manager.names) + {StoreName(indexes[i], baseName)}
    ensures DistinctNames(indexes) ==>
              IndexContents(indexes) ==
                old(IndexContents(indexes))[i := if StoreName(indexes[i], baseName) in old(manager.names)
                                                 then old(ContentOf(indexes[i])) else EmptyContent(indexes[i])]
  {
    ghost var before := IndexContents(indexes);
    GetOrAddStore(indexes[i], manager, baseName);
    if DistinctNames(indexes) {
      DistinctIndexObjects(indexes);
      ghost var after := IndexContents(indexes);
      forall j | 0 <= j < |indexes| && j != i ensures after[j] == before[j] {
        assert indexes[j].Obj() != indexes[i].Obj();
      }
      assert after == before[i := ContentOf(indexes[i])];
    }
  }

  /** Opens the collections of all declared indexes; with distinct names, an index whose collection existed keeps its content and the others start empty. */
  method GetOrAddStores<V>(manager: StateManager, baseName: string, indexes: seq<Index<V>>)
    modifies manager, IndexObjects(indexes)
    ensures manager.names == old(manager.names) + StoreNames(indexes, baseName)
    ensures DistinctNames(indexes) ==>
              forall i :: 0 <= i < |indexes| ==>
                ContentOf(indexes[i]) == if StoreName(indexes[i], baseName) in old(manager.names)
                                         then old(ContentOf(indexes[i])) else EmptyContent(indexes[i])
  {
    ghost var distinct := DistinctNames(indexes);
    ghost var c0 := IndexContents(indexes);
    ghost var cur := c0;
    for i := 0 to |indexes|
      invariant manager.names == old(manager.names) + StoreNames(indexes[..i], baseName)
      invariant cur == IndexContents(indexes)
      invariant distinct ==>
                  forall j :: 0 <= j < i ==>
                    cur[j] == if StoreName(indexes[j], baseName) in old(manager.names) then c0[j] else EmptyContent(indexes[j])
      invariant distinct ==>
                  forall j :: i <= j < |indexes| ==>
                    cur[j] == c0[j] && (StoreName(indexes[j], baseName) in manager.names <==> StoreName(indexes[j], baseName) in old(manager.names))
    {
      GetOrAddStoreAt(manager, baseName, indexes, i);
      StoreNamesSnoc(indexes, i, baseName);
      if distinct {
        forall j | i < j < |indexes| ensures StoreName(indexes[j], baseName) != StoreName(indexes[i], baseName) {
          StoreNameInjective(indexes[i], indexes[j], baseName);
        }
      }
      cur := IndexContents(indexes);
    }
    assert indexes[..|indexes|] == indexes;
  }

  /**
   * The private `GetOrAddIndexedAsync`: gets or adds the collection of every declared index under
   * the base name, then wraps the dictionary (the constructor's error on duplicate index names).
   */
  method GetOrAddIndexes<V(==)>(manager: StateManager, baseName: string, primary: PrimaryStore<V>, indexes: seq<Index<V>>)
    returns (r: Result<IndexedDictionary<V>>)
    modifies manager, IndexObjects(indexes)
    ensures manager.names == old(manager.names) + StoreNames(indexes, baseName)
    ensures r.Err? <==> !DistinctNames(indexes)
    ensures r.Err? ==> r.error == ArgumentError
    ensures r.Ok? ==> fresh(r.value) && r.value.Valid() && r.value.primary == primary && r.value.indexes == indexes
    ensures DistinctNames(indexes) ==>
              forall i :: 0 <= i < |indexes| ==>
                ContentOf(indexes[i]) == if StoreName(indexes[i], baseName) in old(manager.names)
                                         then old(ContentOf(indexes[i])) else EmptyContent(indexes[i])
  {
    GetOrAddStores(manager, baseName, indexes);
    r := IndexedDictionary.Create(Some(primary), Some(indexes));
  }

  /**
   * `GetOrAddIndexedAsync`: the primary dictionary and the collection of every declared index
   * exist afterwards, and nothing else is created; the result is a dictionary over exactly
   * those indexes, or the constructor's error on duplicate index names.
   */
  method GetOrAddIndexed<V(==)>(manager: StateManager, name: string, primary: PrimaryStore<V>, indexes: seq<Index<V>>)
    returns (r: Result<IndexedDictionary<V>>)
    modifies manager, primary, IndexObjects(indexes)
    ensures manager.names == old(manager.names) + {name} + StoreNames(indexes, BaseIndexName(name))
    ensures primary.entries == if name in old(manager.names) then old(primary.entries) else map[]
    ensures r.Err? <==> !DistinctNames(indexes)
    ensures r.Err? ==> r.error == ArgumentError
    ensures r.Ok? ==> fresh(r.value) && r.value.Valid() && r.value.primary == primary && r.value.indexes == indexes
    ensures DistinctNames(indexes) ==>
              forall i :: 0 <= i < |indexes| ==>
                ContentOf(indexes[i]) == if StoreName(indexes[i], BaseIndexName(name)) in old(manager.names) + {name}
                                         then old(ContentOf(indexes[i])) else EmptyContent(indexes[i])
    ensures r.Ok? && name !in old(manager.names) && StoreNames(indexes, BaseIndexName(name)) !! old(manager.names) + {name} ==>
              r.value.IndexesCoherent()
  {
    ghost var names0 := manager.names + {name};
    if name !in manager.names {
      primary.entries := map[];
    }
    manager.names := manager.names + {name};
    PrimaryIsNoIndex(primary, indexes);
    var baseName := BaseIndexName(name);
    r := GetOrAddIndexes(manager, baseName, primary, indexes);
    if r.Ok? && name !in old(manager.names) && StoreNames(indexes, baseName) !! names0 {
      StoreNamesWithin(indexes, baseName, StoreNames(indexes, baseName));
      EmptyIndexesCoherent(indexes, r.value.Contents());
    }
  }

  /**
   * `TryGetAsync`/`TryGetIndexedAsync`: no value when the primary or any declared index
   * collection is missing; the registry is left as it is.
   */
  method TryGetIndexed<V(==)>(manager: StateManager, name: string, primary: PrimaryStore<V>, indexes: seq<Index<V>>)
    returns (r: Result<Option<IndexedDictionary<V>>>)
    ensures r == Ok(None) <==> name !in manager.names || !(StoreNames(indexes, BaseIndexName(name)) <= manager.names)
    ensures r.Err? <==> name in manager.names && StoreNames(indexes, BaseIndexName(name)) <= manager.names && !DistinctNames(indexes)
    ensures r.Err? ==> r.error == ArgumentError
    ensures r.Ok? && r.value.Some? ==>
              r.value.value.Valid() && r.value.value.primary == primary && r.value.value.indexes == indexes
  {
    if name !in manager.names {
      return Ok(None);
    }
    var baseName := BaseIndexName(name);
    StoreNamesWithin(indexes, baseName, manager.names);
    for i := 0 to |indexes|
      invariant forall j :: 0 <= j < i ==> StoreName(indexes[j], baseName) in manager.names
    {
      var found := TryGetStore(indexes[i], manager, baseName);
      if !found {
        return Ok(None);
      }
    }
    var d := IndexedDictionary.Create(Some(primary), Some(indexes));
    if d.Err? {
      return Err(d.error);
    }
    return Ok(Some(d.value));
  }

  /** The first n of the contents cs of the indexes xs are empty. */
  ghost predicate EmptyBelow<V>(xs: seq<Index<V>>, cs: seq<Content>, n: nat)
    requires |cs| == |xs| && n <= |xs|
  {
    forall j :: 0 <= j < n ==> cs[j] == EmptyContent(xs[j])
  }

  /** One step of the loop in RemoveStores: clears the collection of the i-th index and keeps the earlier ones empty. */
  method RemoveStoreAt<V>(manager: StateManager, baseName: string, indexes: seq<Index<V>>, i: nat)
    requires i < |indexes|
    modifies manager, indexes[i].Obj()
    ensures manager.names == old(manager.names) - {StoreName(indexes[i], baseName)}
    ensures EmptyBelow(indexes, old(IndexContents(indexes)), i) ==> EmptyBelow(indexes, IndexContents(indexes), i + 1)
  {
    ghost var before := IndexContents(indexes);
    RemoveStore(indexes[i], manager, baseName);
    ghost var after := IndexContents(indexes);
    if EmptyBelow(indexes, before, i) {
      forall j | 0 <= j <= i ensures after[j] == EmptyContent(indexes[j]) {
        if indexes[j].Obj() == indexes[i].Obj() {
          assert indexes[j] == indexes[i];
        } else {
          assert after[j] == before[j];
        }
      }
    }
  }

  /** Removes the collections of all declared indexes, leaving each index empty. */
  method RemoveStores<V>(manager: StateManager, baseName: string, indexes: seq<Index<V>>)
    modifies manager, IndexObjects(indexes)
    ensures manager.names == old(manager.names) - StoreNames(indexes, baseName)
    ensures forall i :: 0 <= i < |indexes| ==> ContentOf(indexes[i]) == EmptyContent(indexes[i])
  {
    ghost var cur := IndexContents(indexes);
    for i := 0 to |indexes|
      invariant manager.names == old(manager.names) - StoreNames(indexes[..i], baseName)
      invariant cur == IndexContents(indexes)
      invariant EmptyBelow(indexes, cur, i)
    {
      RemoveStoreAt(manager, baseName, indexes, i);
      StoreNamesSnoc(indexes, i, baseName);
      cur := IndexContents(indexes);
    }
    assert indexes[..|indexes|] == indexes;
  }

  /**
   * `RemoveIndexedAsync` by Uri: the primary dictionary and the collection of every declared
   * index are gone afterwards, and nothing else is removed.
   */
  method RemoveIndexed<V>(manager: StateManager, name: Uri, primary: PrimaryStore<V>, indexes: seq<Index<V>>)
    modifies manager, primary, IndexObjects(indexes)
    ensures manager.names == old(manager.names) - {name.absolutePath} - StoreNames(indexes, BaseIndexUri(name))
    ensures primary.entries == map[]
    ensures forall i :: 0 <= i < |indexes| ==> ContentOf(indexes[i]) == EmptyContent(indexes[i])
  {
    manager.names := manager.names - {name.absolutePath};
    primary.entries := map[];
    PrimaryIsNoIndex(primary, indexes);
    var baseName := BaseIndexUri(name);
    RemoveStores(manager, baseName, indexes);
  }

  /**
   * `RemoveIndexedAsync` by name: nothing happens when no dictionary has the name; otherwise
   * the removal by the dictionary's Uri.
   */
  method RemoveIndexedByName<V>(manager: StateManager, name: string, primary: PrimaryStore<V>, indexes: seq<Index<V>>)
    modifies manager, primary, IndexObjects(indexes)
    ensures name !in old(manager.names) ==>
              && manager.names == old(manager.names) && primary.entries == old(primary.entries)
              && forall i :: 0 <= i < |indexes| ==> ContentOf(indexes[i]) == old(ContentOf(indexes[i]))
    ensures name in old(manager.names) ==>
              && manager.names == old(manager.names) - {name} - StoreNames(indexes, BaseIndexName(name))
              && primary.entries == map[]
              && forall i :: 0 <= i < |indexes| ==> ContentOf(indexes[i]) == EmptyContent(indexes[i])
  {
    if name in manager.names {
      RemoveIndexed(manager, Uri(name), primary, indexes);
    }
  }
}
