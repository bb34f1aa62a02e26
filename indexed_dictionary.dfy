/**
 * The indexed dictionary (ReliableIndexedDictionary.cs): a primary dictionary and its declared
 * indexes. Every operation that changes the primary then runs the matching hook on every index,
 * in declaration order; queries are routed to an index by name and kind, and their keys are
 * joined with the primary.
 */
module IndexedDictionaries {
  import opened Wrappers
  import opened CollectionExtensions
  import opened PostingLists
  import opened Tokenizer
  import opened FilterValues
  import opened SearchIndexes
  import opened FilterIndexes
  import opened Fetch

  /** A declared index: a filterable or a searchable one. */
  datatype Index<V> = FilterIdx(filter: FilterableIndex<V>) | SearchIdx(search: SearchableIndex<V>)
  {
    function Obj(): object {
      if FilterIdx? then filter else search
    }

    function Name(): string {
      if FilterIdx? then filter.name else search.name
    }
  }

  /** The content of an index collection. */
  datatype Content = FilterContent(values: Store<FilterValue>) | SearchContent(words: Store<string>)

  /** A content of the index's own kind. */
  predicate Matches<V>(x: Index<V>, c: Content) {
    x.FilterIdx? <==> c.FilterContent?
  }

  predicate AllMatch<V>(xs: seq<Index<V>>, cs: seq<Content>) {
    |xs| == |cs| && forall i :: 0 <= i < |xs| ==> Matches(xs[i], cs[i])
  }

  /** The current content of an index. */
  ghost function ContentOf<V>(x: Index<V>): (c: Content)
    reads x.Obj()
    ensures Matches(x, c)
  {
    if x.FilterIdx? then FilterContent(x.filter.store) else SearchContent(x.search.store)
  }

  /** The notification an index receives. */
  datatype Hook<V> = AddHook(key: Key, value: V) | UpdateHook(key: Key, oldValue: V, newValue: V) | RemoveHook(key: Key, value: V) | ClearHook

  function AsFilterContent(r: Result<Store<FilterValue>>): Result<Content> {
    match r
    case Err(e) => Err(e)
    case Ok(m) => Ok(FilterContent(m))
  }

  function AsSearchContent(r: Result<Store<string>>): Result<Content> {
    match r
    case Err(e) => Err(e)
    case Ok(m) => Ok(SearchContent(m))
  }

  /** The content after one index runs a hook, or the error the hook throws. */
  ghost function Step<V>(x: Index<V>, c: Content, h: Hook<V>): (r: Result<Content>)
    requires Matches(x, c)
    ensures r.Ok? ==> Matches(x, r.value)
  {
    match h
    case ClearHook => Ok(if x.FilterIdx? then FilterContent(map[]) else SearchContent(map[]))
    case AddHook(key, value) =>
      if x.FilterIdx? then AsFilterContent(AddFilter(c.values, key, x.filter.GetFilterValue(key, value)))
      else Ok(SearchContent(AddedStore(c.words, x.search.property, key, value)))
    case UpdateHook(key, oldValue, newValue) =>
      if x.FilterIdx? then
        AsFilterContent(UpdateFilter(c.values, key, x.filter.GetFilterValue(key, oldValue), x.filter.GetFilterValue(key, newValue)))
      else AsSearchContent(UpdatedStore(c.words, x.search.property, key, oldValue, newValue))
    case RemoveHook(key, value) =>
      if x.FilterIdx? then AsFilterContent(RemoveFilter(c.values, key, x.filter.GetFilterValue(key, value)))
      else AsSearchContent(RemovedStore(c.words, x.search.property, key, value))
  }

  function Prepend(p: seq<Content>, r: Result<seq<Content>>): Result<seq<Content>> {
    match r
    case Err(e) => Err(e)
    case Ok(s) => Ok(p + s)
  }

  /**
   * The indexes run the hook one after the other, in declaration order: the contents after all
   * of them, or the error of the first one that throws (the later ones do not run).
   */
  ghost function Notify<V>(xs: seq<Index<V>>, cs: seq<Content>, h: Hook<V>): (r: Result<seq<Content>>)
    requires AllMatch(xs, cs)
    ensures r.Ok? ==> AllMatch(xs, r.value)
    decreases |xs|
  {
    if xs == [] then Ok([])
    else
      match Step(xs[0], cs[0], h)
      case Err(e) => Err(e)
      case Ok(c) => Prepend([c], Notify(xs[1..], cs[1..], h))
  }

  /** Running the hooks from position `i` on: the hook of index `i` first, then the rest. */
  lemma NotifyFrom<V>(xs: seq<Index<V>>, cs: seq<Content>, i: nat, h: Hook<V>)
    requires AllMatch(xs, cs) && i < |xs|
    ensures Notify(xs[i..], cs[i..], h) ==
              match Step(xs[i], cs[i], h)
              case Err(e) => Err(e)
              case Ok(c) => Prepend([c], Notify(xs[i + 1..], cs[i + 1..], h))
  {
    assert xs[i..][0] == xs[i] && xs[i..][1..] == xs[i + 1..];
    assert cs[i..][0] == cs[i] && cs[i..][1..] == cs[i + 1..];
  }

  lemma PrependPrepend(p: seq<Content>, q: seq<Content>, r: Result<seq<Content>>)
    ensures Prepend(p, Prepend(q, r)) == Prepend(p + q, r)
  {
    if r.Ok? {
      assert p + (q + r.value) == (p + q) + r.value;
    }
  }

  /**
   * Part way through: the outcome of running the hook on every index from the contents `c0` is
   * the contents of the first `i` indexes in front of the outcome of the remaining ones.
   */
  ghost predicate Resumes<V>(xs: seq<Index<V>>, c0: seq<Content>, cs: seq<Content>, i: nat, h: Hook<V>)
    requires AllMatch(xs, c0) && AllMatch(xs, cs) && i <= |xs|
  {
    Notify(xs, c0, h) == Prepend(cs[..i], Notify(xs[i..], cs[i..], h))
  }

  /** Before any index runs the hook, the outcome is that of all of them. */
  lemma NotifyStart<V>(xs: seq<Index<V>>, cs: seq<Content>, h: Hook<V>)
    requires AllMatch(xs, cs)
    ensures Resumes(xs, cs, cs, 0, h)
  {
    assert xs[0..] == xs && cs[0..] == cs && cs[..0] == [];
    match Notify(xs, cs, h) {
      case Ok(t) => assert [] + t == t;
      case Err(_) =>
    }
  }

  /**
   * Once index `i` has run the hook successfully, the outcome is that of the remaining indexes
   * behind the contents so far.
   */
  lemma NotifyAdvance<V>(xs: seq<Index<V>>, c0: seq<Content>, cs: seq<Content>, i: nat, c: Content, h: Hook<V>)
    requires AllMatch(xs, c0) && AllMatch(xs, cs) && i < |xs| && Resumes(xs, c0, cs, i, h)
    requires Step(xs[i], cs[i], h) == Ok(c)
    ensures AllMatch(xs, cs[i := c]) && Resumes(xs, c0, cs[i := c], i + 1, h)
  {
    NotifyFrom(xs, cs, i, h);
    assert cs[i := c][i + 1..] == cs[i + 1..];
    assert cs[i := c][..i + 1] == cs[..i] + [c];
    PrependPrepend(cs[..i], [c], Notify(xs[i + 1..], cs[i + 1..], h));
  }

  /** When index `i` throws, that error is the outcome and the later indexes do not run. */
  lemma NotifyFail<V>(xs: seq<Index<V>>, c0: seq<Content>, cs: seq<Content>, i: nat, h: Hook<V>)
    requires AllMatch(xs, c0) && AllMatch(xs, cs) && i < |xs| && Resumes(xs, c0, cs, i, h)
    requires Step(xs[i], cs[i], h).Err?
    ensures Notify(xs, c0, h) == Err(Step(xs[i], cs[i], h).error)
  {
    NotifyFrom(xs, cs, i, h);
  }

  /** After every index ran the hook successfully, the outcome is the contents reached. */
  lemma NotifyEnd<V>(xs: seq<Index<V>>, c0: seq<Content>, cs: seq<Content>, h: Hook<V>)
    requires AllMatch(xs, c0) && AllMatch(xs, cs) && Resumes(xs, c0, cs, |xs|, h)
    ensures Notify(xs, c0, h) == Ok(cs)
  {
    assert xs[|xs|..] == [] && cs[..|xs|] == cs && cs + [] == cs;
  }

  /** One index runs the hook. */
  method RunHook<V>(x: Index<V>, h: Hook<V>) returns (s: Result<()>)
    modifies x.Obj()
    ensures s.Ok? <==> Step(x, old(ContentOf(x)), h).Ok?
    ensures s.Err? ==> s.error == Step(x, old(ContentOf(x)), h).error
    ensures s.Ok? ==> ContentOf(x) == Step(x, old(ContentOf(x)), h).value
  {
    s := Ok(());
    match x {
      case FilterIdx(f) =>
        match h {
          case AddHook(key, value) => s := f.OnAdd(key, value);
          case UpdateHook(key, oldValue, newValue) => s := f.OnUpdate(key, oldValue, newValue);
          case RemoveHook(key, value) => s := f.OnRemove(key, value);
          case ClearHook => f.OnClear();
        }
      case SearchIdx(t) =>
        match h {
          case AddHook(key, value) => t.OnAdd(key, value);
          case UpdateHook(key, oldValue, newValue) => s := t.OnUpdate(key, oldValue, newValue);
          case RemoveHook(key, value) => s := t.OnRemove(key, value);
          case ClearHook => t.OnClear();
        }
    }
  }

  /** An index's content holds exactly what its projection of `primary` requires. */
  ghost predicate ContentCoherent<V>(x: Index<V>, c: Content, primary: map<Key, V>) {
    if x.FilterIdx? then
      c.FilterContent? &&
      Coherent(c.values, FilterValues.Expected(Projected(x.filter.filter, x.filter.useNaString, x.filter.filterType, primary)))
    else
      c.SearchContent? && Coherent(c.words, SearchIndexes.Expected(x.search.property, primary))
  }

  ghost predicate AllCoherent<V>(xs: seq<Index<V>>, cs: seq<Content>, primary: map<Key, V>) {
    AllMatch(xs, cs) && forall i :: 0 <= i < |xs| ==> ContentCoherent(xs[i], cs[i], primary)
  }

  /** No filterable index projects the entry to a null value (the index store rejects null). */
  predicate NoNullFilterValue<V>(xs: seq<Index<V>>, key: Key, value: V) {
    forall i :: 0 <= i < |xs| && xs[i].FilterIdx? ==> !xs[i].filter.GetFilterValue(key, value).Null?
  }

  /** The tail of a coherent family of indexes is coherent. */
  lemma AllCoherentTail<V>(xs: seq<Index<V>>, cs: seq<Content>, primary: map<Key, V>)
    requires AllCoherent(xs, cs, primary) && xs != []
    ensures AllCoherent(xs[1..], cs[1..], primary) && ContentCoherent(xs[0], cs[0], primary)
  {
    assert forall i :: 0 <= i < |xs| - 1 ==> xs[1..][i] == xs[i + 1] && cs[1..][i] == cs[i + 1];
  }

  /**
   * Adding a new entry: when no filterable index projects it to null, every hook succeeds and
   * the indexes become coherent with the primary map holding the entry.
   */
  lemma {:induction false} NotifyAddCoherent<V>(xs: seq<Index<V>>, cs: seq<Content>, primary: map<Key, V>, key: Key, value: V)
    requires AllCoherent(xs, cs, primary) && key !in primary && NoNullFilterValue(xs, key, value)
    ensures Notify(xs, cs, AddHook(key, value)).Ok?
    ensures AllCoherent(xs, Notify(xs, cs, AddHook(key, value)).value, primary[key := value])
    decreases |xs|
  {
    if xs != [] {
      var x := xs[0];
      AllCoherentTail(xs, cs, primary);
      assert NoNullFilterValue(xs[1..], key, value) by {
        assert forall i :: 0 <= i < |xs| - 1 ==> xs[1..][i] == xs[i + 1];
      }
      NotifyAddCoherent(xs[1..], cs[1..], primary, key, value);
      if x.FilterIdx? {
        OnAddCoherent(cs[0].values, x.filter.filter, x.filter.useNaString, x.filter.filterType, primary, key, value);
      } else {
        AddedStoreCoherent(cs[0].words, x.search.property, primary, key, value);
      }
      NotifyConsCoherent(xs, cs, primary[key := value], AddHook(key, value));
    }
  }

  /**
   * Updating an entry: when no filterable index projects the old or the new value to null,
   * every hook succeeds and the indexes become coherent with the updated primary map.
   */
  lemma {:induction false} NotifyUpdateCoherent<V>(xs: seq<Index<V>>, cs: seq<Content>, primary: map<Key, V>, key: Key, newValue: V)
    requires AllCoherent(xs, cs, primary) && key in primary
    requires NoNullFilterValue(xs, key, primary[key]) && NoNullFilterValue(xs, key, newValue)
    ensures Notify(xs, cs, UpdateHook(key, primary[key], newValue)).Ok?
    ensures AllCoherent(xs, Notify(xs, cs, UpdateHook(key, primary[key], newValue)).value, primary[key := newValue])
    decreases |xs|
  {
    if xs != [] {
      var x := xs[0];
      AllCoherentTail(xs, cs, primary);
      assert NoNullFilterValue(xs[1..], key, primary[key]) && NoNullFilterValue(xs[1..], key, newValue) by {
        assert forall i :: 0 <= i < |xs| - 1 ==> xs[1..][i] == xs[i + 1];
      }
      NotifyUpdateCoherent(xs[1..], cs[1..], primary, key, newValue);
      if x.FilterIdx? {
        OnUpdateCoherent(cs[0].values, x.filter.filter, x.filter.useNaString, x.filter.filterType, primary, key, newValue);
      } else {
        UpdatedStoreCoherent(cs[0].words, x.search.property, primary, key, newValue);
      }
      NotifyConsCoherent(xs, cs, primary[key := newValue], UpdateHook(key, primary[key], newValue));
    }
  }

  /**
   * Removing an entry: when no filterable index projects its value to null, every hook
   * succeeds and the indexes become coherent with the primary map without the entry.
   */
  lemma {:induction false} NotifyRemoveCoherent<V>(xs: seq<Index<V>>, cs: seq<Content>, primary: map<Key, V>, key: Key)
    requires AllCoherent(xs, cs, primary) && key in primary && NoNullFilterValue(xs, key, primary[key])
    ensures Notify(xs, cs, RemoveHook(key, primary[key])).Ok?
    ensures AllCoherent(xs, Notify(xs, cs, RemoveHook(key, primary[key])).value, primary - {key})
    decreases |xs|
  {
    if xs != [] {
      var x := xs[0];
      AllCoherentTail(xs, cs, primary);
      assert NoNullFilterValue(xs[1..], key, primary[key]) by {
        assert forall i :: 0 <= i < |xs| - 1 ==> xs[1..][i] == xs[i + 1];
      }
      NotifyRemoveCoherent(xs[1..], cs[1..], primary, key);
      if x.FilterIdx? {
        OnRemoveCoherent(cs[0].values, x.filter.filter, x.filter.useNaString, x.filter.filterType, primary, key);
      } else {
        RemovedStoreCoherent(cs[0].words, x.search.property, primary, key);
      }
      NotifyConsCoherent(xs, cs, primary - {key}, RemoveHook(key, primary[key]));
    }
  }

  /** Clearing: every hook succeeds and every index is empty, coherent with the empty map. */
  lemma {:induction false} NotifyClearCoherent<V>(xs: seq<Index<V>>, cs: seq<Content>)
    requires AllMatch(xs, cs)
    ensures Notify(xs, cs, ClearHook).Ok?
    ensures AllCoherent(xs, Notify(xs, cs, ClearHook).value, map[])
    ensures forall i :: 0 <= i < |xs| ==> Notify(xs, cs, ClearHook).value[i] in {FilterContent(map[]), SearchContent(map[])}
    decreases |xs|
  {
    if xs != [] {
      var x := xs[0];
      assert AllMatch(xs[1..], cs[1..]) by {
        assert forall i :: 0 <= i < |xs| - 1 ==> xs[1..][i] == xs[i + 1] && cs[1..][i] == cs[i + 1];
      }
      NotifyClearCoherent(xs[1..], cs[1..]);
      if x.FilterIdx? {
        EmptyCoherent(FilterValues.Expected(Projected(x.filter.filter, x.filter.useNaString, x.filter.filterType, map[])));
      } else {
        EmptyCoherent(SearchIndexes.Expected(x.search.property, map[]));
      }
      NotifyConsCoherent(xs, cs, map[], ClearHook);
    }
  }

  /**
   * Adding an entry that some filterable index projects to null fails with
   * `ArgumentNullException`, whatever the contents: the hooks before that index succeed and it
   * throws.
   */
  lemma {:induction false} NotifyAddNullFails<V>(xs: seq<Index<V>>, cs: seq<Content>, key: Key, value: V)
    requires AllMatch(xs, cs) && !NoNullFilterValue(xs, key, value)
    ensures Notify(xs, cs, AddHook(key, value)) == Err(ArgumentNull)
    decreases |xs|
  {
    var x := xs[0];
    if !(x.FilterIdx? && x.filter.GetFilterValue(key, value).Null?) {
      assert AllMatch(xs[1..], cs[1..]) && !NoNullFilterValue(xs[1..], key, value) by {
        assert forall i :: 0 <= i < |xs| - 1 ==> xs[1..][i] == xs[i + 1] && cs[1..][i] == cs[i + 1];
        var j :| 0 <= j < |xs| && xs[j].FilterIdx? && xs[j].filter.GetFilterValue(key, value).Null?;
        assert j != 0 && xs[1..][j - 1] == xs[j];
      }
      NotifyAddNullFails(xs[1..], cs[1..], key, value);
    }
  }

  /** A successful first hook followed by successful later ones: coherence is assembled from both. */
  lemma NotifyConsCoherent<V>(xs: seq<Index<V>>, cs: seq<Content>, primary: map<Key, V>, h: Hook<V>)
    requires AllMatch(xs, cs) && xs != []
    requires Step(xs[0], cs[0], h).Ok? && ContentCoherent(xs[0], Step(xs[0], cs[0], h).value, primary)
    requires AllMatch(xs[1..], cs[1..]) && Notify(xs[1..], cs[1..], h).Ok?
    requires AllCoherent(xs[1..], Notify(xs[1..], cs[1..], h).value, primary)
    ensures Notify(xs, cs, h) == Ok([Step(xs[0], cs[0], h).value] + Notify(xs[1..], cs[1..], h).value)
    ensures AllCoherent(xs, Notify(xs, cs, h).value, primary)
  {
    var c := Step(xs[0], cs[0], h).value;
    var rest := Notify(xs[1..], cs[1..], h).value;
    assert forall i :: 1 <= i < |xs| ==> ([c] + rest)[i] == rest[i - 1] && xs[i] == xs[1..][i - 1];
  }

  /** The first filterable index with the given name (the `_filterIndexes` dictionary). */
  function FindFilter<V>(xs: seq<Index<V>>, name: string): (r: Option<FilterableIndex<V>>)
    ensures r.None? <==> forall i :: 0 <= i < |xs| && xs[i].FilterIdx? ==> xs[i].filter.name != name
    ensures r.Some? ==> r.value.name == name && exists i :: 0 <= i < |xs| && xs[i] == FilterIdx(r.value)
    decreases |xs|
  {
    if xs == [] then None
    else if xs[0].FilterIdx? && xs[0].filter.name == name then Some(xs[0].filter)
    else
      var r := FindFilter(xs[1..], name);
      assert forall i :: 1 <= i < |xs| ==> xs[i] == xs[1..][i - 1];
      r
  }

  /** Whether some declared index is searchable (`_searchIndexes.Count > 0`). */
  predicate HasSearchIndex<V>(xs: seq<Index<V>>) {
    exists i :: 0 <= i < |xs| && xs[i].SearchIdx?
  }

  /** Names are unique among the filterable indexes and among the searchable ones. */
  predicate DistinctNames<V>(xs: seq<Index<V>>) {
    forall i, j :: 0 <= i < j < |xs| && xs[i].FilterIdx? == xs[j].FilterIdx? ==> xs[i].Name() != xs[j].Name()
  }

  /** Indexes with distinct names are distinct objects: one object has one kind and one name. */
  lemma DistinctIndexObjects<V>(xs: seq<Index<V>>)
    requires DistinctNames(xs)
    ensures forall i, j :: 0 <= i < j < |xs| ==> xs[i].Obj() != xs[j].Obj()
  {
    forall i, j | 0 <= i < j < |xs| ensures xs[i].Obj() != xs[j].Obj() {
      if xs[i].FilterIdx? == xs[j].FilterIdx? {
        assert xs[i].Name() != xs[j].Name();
      }
    }
  }

  class IndexedDictionary<V(==)> {
    const primary: PrimaryStore<V>
    const indexes: seq<Index<V>>

    ghost function Objects(): set<object> {
      set i | 0 <= i < |indexes| :: indexes[i].Obj()
    }

    ghost predicate Valid() {
      && DistinctNames(indexes)
      && (forall i, j :: 0 <= i < j < |indexes| ==> indexes[i].Obj() != indexes[j].Obj())
      && primary !in Objects()
    }

    /** The contents of the declared indexes, in declaration order. */
    ghost function Contents(): (cs: seq<Content>)
      reads Objects()
      ensures |cs| == |indexes| && forall i :: 0 <= i < |indexes| ==> cs[i] == ContentOf(indexes[i])
      ensures AllMatch(indexes, cs)
    {
      seq(|indexes|, i requires 0 <= i < |indexes| reads Objects() => ContentOf(indexes[i]))
    }

    constructor (primary: PrimaryStore<V>, indexes: seq<Index<V>>)
      requires DistinctNames(indexes)
      ensures Valid() && this.primary == primary && this.indexes == indexes
    {
      this.primary := primary;
      this.indexes := indexes;
      new;
      DistinctIndexObjects(indexes);
    }

    /** Index `i` runs the hook; no other index changes. */
    method RunHookAt(i: nat, h: Hook<V>) returns (s: Result<()>)
      requires Valid() && i < |indexes|
      modifies indexes[i].Obj()
      ensures s.Ok? <==> Step(indexes[i], old(Contents())[i], h).Ok?
      ensures s.Err? ==> s.error == Step(indexes[i], old(Contents())[i], h).error
      ensures s.Ok? ==> Contents() == old(Contents())[i := Step(indexes[i], old(Contents())[i], h).value]
    {
      ghost var before := Contents();
      s := RunHook(indexes[i], h);
      if s.Ok? {
        forall j | 0 <= j < |indexes| && j != i ensures ContentOf(indexes[j]) == before[j] {
          assert indexes[j].Obj() != indexes[i].Obj();
          if indexes[j].FilterIdx? {
            assert indexes[j].filter.store == old(indexes[j].filter.store);
          } else {
            assert indexes[j].search.store == old(indexes[j].search.store);
          }
        }
      }
    }

    /** `OnAddAsync`, `OnUpdateAsync`, `OnRemoveAsync` and the loop of `ClearAsync`. */
    method NotifyAll(h: Hook<V>) returns (r: Result<()>)
      requires Valid()
      modifies Objects()
      ensures r.Ok? <==> Notify(indexes, old(Contents()), h).Ok?
      ensures r.Err? ==> r.error == Notify(indexes, old(Contents()), h).error
      ensures r.Ok? ==> Notify(indexes, old(Contents()), h) == Ok(Contents())
    {
      ghost var c0 := Contents();
      ghost var cur := c0;
      var i := 0;
      NotifyStart(indexes, c0, h);
      while i < |indexes|
        invariant 0 <= i <= |indexes| && cur == Contents()
        invariant Resumes(indexes, c0, cur, i, h)
      {
        assert indexes[i].Obj() in Objects();
        var s := RunHookAt(i, h);
        if s.Err? {
          NotifyFail(indexes, c0, cur, i, h);
          return Err(s.error);
        }
        ghost var c := Step(indexes[i], cur[i], h).value;
        NotifyAdvance(indexes, c0, cur, i, c, h);
        cur := cur[i := c];
        i := i + 1;
      }
      NotifyEnd(indexes, c0, cur, h);
      r := Ok(());
    }

    /** The indexes hold exactly what their projections of the primary map require. */
    ghost predicate IndexesCoherent()
      reads primary, Objects()
    {
      AllCoherent(indexes, Contents(), primary.entries)
    }

    /**
     * The constructor's checks: a missing dictionary or index list is `ArgumentNullException`;
     * two filterable or two searchable indexes with one name make `ToDictionary` throw
     * `ArgumentException`.
     */
    static method Create(primary: Option<PrimaryStore<V>>, indexes: Option<seq<Index<V>>>) returns (r: Result<IndexedDictionary<V>>)
      ensures r.Err? <==> primary.None? || indexes.None? || !DistinctNames(indexes.value)
      ensures r.Err? ==> r.error == (if primary.None? || indexes.None? then ArgumentNull else ArgumentError)
      ensures r.Ok? ==> fresh(r.value) && r.value.Valid() && r.value.primary == primary.value && r.value.indexes == indexes.value
    {
      if primary.None? || indexes.None? {
        return Err(ArgumentNull);
      }
      if !DistinctNames(indexes.value) {
        return Err(ArgumentError);
      }
      var d := new IndexedDictionary(primary.value, indexes.value);
      return Ok(d);
    }

    /**
     * `AddAsync`: the dictionary throws `ArgumentException` for a present key; otherwise the
     * entry is inserted and every index runs its add hook.
     */
    method Add(key: Key, value: V) returns (r: Result<()>)
      requires Valid()
      modifies primary, Objects()
      ensures key in old(primary.entries) ==>
                r == Err(ArgumentError) && primary.entries == old(primary.entries) && Contents() == old(Contents())
      ensures key !in old(primary.entries) ==> primary.entries == old(primary.entries)[key := value]
      ensures key !in old(primary.entries) ==> (r.Ok? <==> Notify(indexes, old(Contents()), AddHook(key, value)).Ok?)
      ensures key !in old(primary.entries) && r.Err? ==> r.error == Notify(indexes, old(Contents()), AddHook(key, value)).error
      ensures key !in old(primary.entries) && r.Ok? ==> Notify(indexes, old(Contents()), AddHook(key, value)) == Ok(Contents())
      ensures old(IndexesCoherent()) && key !in old(primary.entries) && NoNullFilterValue(indexes, key, value) ==>
                r.Ok? && IndexesCoherent()
    {
      if key in primary.entries {
        return Err(ArgumentError);
      }
      ghost var c0, p0 := Contents(), primary.entries;
      if AllCoherent(indexes, c0, p0) && NoNullFilterValue(indexes, key, value) {
        NotifyAddCoherent(indexes, c0, p0, key, value);
      }
      primary.entries := primary.entries[key := value];
      r := NotifyAll(AddHook(key, value));
    }

    /** `TryAddAsync`: false and no hook for a present key; otherwise as `AddAsync`. */
    method TryAdd(key: Key, value: V) returns (r: Result<bool>)
      requires Valid()
      modifies primary, Objects()
      ensures key in old(primary.entries) ==>
                r == Ok(false) && primary.entries == old(primary.entries) && Contents() == old(Contents())
      ensures key !in old(primary.entries) ==> primary.entries == old(primary.entries)[key := value]
      ensures key !in old(primary.entries) ==> (r == Ok(true) <==> Notify(indexes, old(Contents()), AddHook(key, value)).Ok?)
      ensures key !in old(primary.entries) && r.Err? ==> r.error == Notify(indexes, old(Contents()), AddHook(key, value)).error
      ensures key !in old(primary.entries) && r.Ok? ==> Notify(indexes, old(Contents()), AddHook(key, value)) == Ok(Contents())
      ensures old(IndexesCoherent()) && (key !in old(primary.entries) ==> NoNullFilterValue(indexes, key, value)) ==>
                r.Ok? && IndexesCoherent()
    {
      if key in primary.entries {
        return Ok(false);
      }
      ghost var c0, p0 := Contents(), primary.entries;
      if AllCoherent(indexes, c0, p0) && NoNullFilterValue(indexes, key, value) {
        NotifyAddCoherent(indexes, c0, p0, key, value);
      }
      primary.entries := primary.entries[key := value];
      var s := NotifyAll(AddHook(key, value));
      if s.Err? {
        return Err(s.error);
      }
      return Ok(true);
    }

    /** `GetOrAddAsync`: the present value, with no hook; otherwise the value is added. */
    method GetOrAdd(key: Key, value: V) returns (r: Result<V>)
      requires Valid()
      modifies primary, Objects()
      ensures key in old(primary.entries) ==>
                r == Ok(old(primary.entries)[key]) && primary.entries == old(primary.entries) && Contents() == old(Contents())
      ensures key !in old(primary.entries) ==> primary.entries == old(primary.entries)[key := value]
      ensures key !in old(primary.entries) ==> (r == Ok(value) <==> Notify(indexes, old(Contents()), AddHook(key, value)).Ok?)
      ensures key !in old(primary.entries) && r.Err? ==> r.error == Notify(indexes, old(Contents()), AddHook(key, value)).error
      ensures key !in old(primary.entries) && r.Ok? ==> Notify(indexes, old(Contents()), AddHook(key, value)) == Ok(Contents())
      ensures old(IndexesCoherent()) && (key !in old(primary.entries) ==> NoNullFilterValue(indexes, key, value)) ==>
                r.Ok? && IndexesCoherent()
    {
      if key in primary.entries {
        return Ok(primary.entries[key]);
      }
      ghost var c0, p0 := Contents(), primary.entries;
      if AllCoherent(indexes, c0, p0) && NoNullFilterValue(indexes, key, value) {
        NotifyAddCoherent(indexes, c0, p0, key, value);
      }
      primary.entries := primary.entries[key := value];
      var s := NotifyAll(AddHook(key, value));
      if s.Err? {
        return Err(s.error);
      }
      return Ok(value);
    }

    /**
     * `AddOrUpdateAsync`: a present key gets `update(key, old)` and the update hooks see the
     * exact previous value; an absent key gets `addValue` and the add hooks. The stored value
     * is returned.
     */
    method AddOrUpdate(key: Key, addValue: V, update: (Key, V) -> V) returns (r: Result<V>)
      requires Valid()
      modifies primary, Objects()
      ensures key in old(primary.entries) ==>
                var h := UpdateHook(key, old(primary.entries)[key], update(key, old(primary.entries)[key]));
                && primary.entries == old(primary.entries)[key := h.newValue]
                && (r == Ok(h.newValue) <==> Notify(indexes, old(Contents()), h).Ok?)
                && (r.Err? ==> r.error == Notify(indexes, old(Contents()), h).error)
                && (r.Ok? ==> Notify(indexes, old(Contents()), h) == Ok(Contents()))
      ensures key !in old(primary.entries) ==>
                && primary.entries == old(primary.entries)[key := addValue]
                && (r == Ok(addValue) <==> Notify(indexes, old(Contents()), AddHook(key, addValue)).Ok?)
                && (r.Err? ==> r.error == Notify(indexes, old(Contents()), AddHook(key, addValue)).error)
                && (r.Ok? ==> Notify(indexes, old(Contents()), AddHook(key, addValue)) == Ok(Contents()))
      ensures old(IndexesCoherent()) &&
              (key in old(primary.entries) ==>
                 && NoNullFilterValue(indexes, key, old(primary.entries)[key])
                 && NoNullFilterValue(indexes, key, update(key, old(primary.entries)[key]))) &&
              (key !in old(primary.entries) ==> NoNullFilterValue(indexes, key, addValue)) ==>
                r.Ok? && IndexesCoherent()
    {
      ghost var c0, p0 := Contents(), primary.entries;
      var h: Hook<V>;
      var stored: V;
      if key in primary.entries {
        var oldValue := primary.entries[key];
        stored := update(key, oldValue);
        h := UpdateHook(key, oldValue, stored);
        if AllCoherent(indexes, c0, p0) && NoNullFilterValue(indexes, key, oldValue) && NoNullFilterValue(indexes, key, stored) {
          NotifyUpdateCoherent(indexes, c0, p0, key, stored);
        }
      } else {
        stored := addValue;
        h := AddHook(key, addValue);
        if AllCoherent(indexes, c0, p0) && NoNullFilterValue(indexes, key, addValue) {
          NotifyAddCoherent(indexes, c0, p0, key, addValue);
        }
      }
      primary.entries := primary.entries[key := stored];
      assert Contents() == c0;
      var s := NotifyAll(h);
      if s.Err? {
        return Err(s.error);
      }
      return Ok(stored);
    }

    /**
     * `SetAsync`: a present key runs the update hooks with its previous value, an absent key
     * the add hooks.
     */
    method Set(key: Key, value: V) returns (r: Result<()>)
      requires Valid()
      modifies primary, Objects()
      ensures primary.entries == old(primary.entries)[key := value]
      ensures key in old(primary.entries) ==>
                var h := UpdateHook(key, old(primary.entries)[key], value);
                && (r.Ok? <==> Notify(indexes, old(Contents()), h).Ok?)
                && (r.Err? ==> r.error == Notify(indexes, old(Contents()), h).error)
                && (r.Ok? ==> Notify(indexes, old(Contents()), h) == Ok(Contents()))
      ensures key !in old(primary.entries) ==>
                && (r.Ok? <==> Notify(indexes, old(Contents()), AddHook(key, value)).Ok?)
                && (r.Err? ==> r.error == Notify(indexes, old(Contents()), AddHook(key, value)).error)
                && (r.Ok? ==> Notify(indexes, old(Contents()), AddHook(key, value)) == Ok(Contents()))
      ensures old(IndexesCoherent()) && NoNullFilterValue(indexes, key, value) &&
              (key in old(primary.entries) ==> NoNullFilterValue(indexes, key, old(primary.entries)[key])) ==>
                r.Ok? && IndexesCoherent()
    {
      ghost var c0, p0 := Contents(), primary.entries;
      var h: Hook<V>;
      if key in primary.entries {
        var oldValue := primary.entries[key];
        h := UpdateHook(key, oldValue, value);
        if AllCoherent(indexes, c0, p0) && NoNullFilterValue(indexes, key, value) && NoNullFilterValue(indexes, key, oldValue) {
          NotifyUpdateCoherent(indexes, c0, p0, key, value);
        }
      } else {
        h := AddHook(key, value);
        if AllCoherent(indexes, c0, p0) && NoNullFilterValue(indexes, key, value) {
          NotifyAddCoherent(indexes, c0, p0, key, value);
        }
      }
      primary.entries := primary.entries[key := value];
      assert Contents() == c0;
      r := NotifyAll(h);
    }

    /** `TryRemoveAsync`: the removed value, after the remove hooks ran with it; none, and no hook, for an absent key. */
    method TryRemove(key: Key) returns (r: Result<Option<V>>)
      requires Valid()
      modifies primary, Objects()
      ensures key !in old(primary.entries) ==>
                r == Ok(None) && primary.entries == old(primary.entries) && Contents() == old(Contents())
      ensures key in old(primary.entries) ==>
                var h := RemoveHook(key, old(primary.entries)[key]);
                && primary.entries == old(primary.entries) - {key}
                && (r == Ok(Some(h.value)) <==> Notify(indexes, old(Contents()), h).Ok?)
                && (r.Err? ==> r.error == Notify(indexes, old(Contents()), h).error)
                && (r.Ok? ==> Notify(indexes, old(Contents()), h) == Ok(Contents()))
      ensures old(IndexesCoherent()) && (key in old(primary.entries) ==> NoNullFilterValue(indexes, key, old(primary.entries)[key])) ==>
                r.Ok? && IndexesCoherent()
    {
      if key !in primary.entries {
        return Ok(None);
      }
      ghost var c0, p0 := Contents(), primary.entries;
      var value := primary.entries[key];
      if AllCoherent(indexes, c0, p0) && NoNullFilterValue(indexes, key, value) {
        NotifyRemoveCoherent(indexes, c0, p0, key);
      }
      primary.entries := primary.entries - {key};
      var s := NotifyAll(RemoveHook(key, value));
      if s.Err? {
        return Err(s.error);
      }
      return Ok(Some(value));
    }

    /**
     * `TryUpdateAsync`: false with no hook when the key is absent or the dictionary's comparer
     * finds its value unequal to `comparisonValue`; otherwise the value is replaced and the update
     * hooks see the exact value read before the update, not `comparisonValue`.
     */
    method TryUpdate(key: Key, newValue: V, comparisonValue: V) returns (r: Result<bool>)
      requires Valid()
      modifies primary, Objects()
      ensures key !in old(primary.entries) || !primary.valueEquals(old(primary.entries)[key], comparisonValue) ==>
                r == Ok(false) && primary.entries == old(primary.entries) && Contents() == old(Contents())
      ensures key in old(primary.entries) && primary.valueEquals(old(primary.entries)[key], comparisonValue) ==>
                var h := UpdateHook(key, old(primary.entries)[key], newValue);
                && primary.entries == old(primary.entries)[key := newValue]
                && (r == Ok(true) <==> Notify(indexes, old(Contents()), h).Ok?)
                && (r.Err? ==> r.error == Notify(indexes, old(Contents()), h).error)
                && (r.Ok? ==> Notify(indexes, old(Contents()), h) == Ok(Contents()))
      ensures old(IndexesCoherent()) && NoNullFilterValue(indexes, key, newValue) &&
              (key in old(primary.entries) ==> NoNullFilterValue(indexes, key, old(primary.entries)[key])) ==>
                r.Ok? && IndexesCoherent()
    {
      if key !in primary.entries {
        return Ok(false);
      }
      var current := primary.entries[key];
      if !primary.valueEquals(current, comparisonValue) {
        return Ok(false);
      }
      ghost var c0, p0 := Contents(), primary.entries;
      if AllCoherent(indexes, c0, p0) && NoNullFilterValue(indexes, key, newValue) && NoNullFilterValue(indexes, key, current) {
        NotifyUpdateCoherent(indexes, c0, p0, key, newValue);
      }
      primary.entries := primary.entries[key := newValue];
      var s := NotifyAll(UpdateHook(key, current, newValue));
      if s.Err? {
        return Err(s.error);
      }
      return Ok(true);
    }

    /** `ClearAsync`: the primary is cleared, then every index; all of them end up empty. */
    method Clear()
      requires Valid()
      modifies primary, Objects()
      ensures primary.entries == map[] && IndexesCoherent()
      ensures forall i :: 0 <= i < |indexes| ==> Contents()[i] in {FilterContent(map[]), SearchContent(map[])}
    {
      ghost var c0 := Contents();
      NotifyClearCoherent(indexes, c0);
      primary.entries := map[];
      var s := NotifyAll(ClearHook);
    }

    /**
     * `GetFilterableIndex`: `KeyNotFoundException` when no filterable index has the name,
     * `InvalidCastException` when the one that has it filters on another type.
     */
    function GetFilterableIndex(name: string, t: FilterType): (r: Result<FilterableIndex<V>>)
      ensures r == Err(KeyNotFound) <==> forall i :: 0 <= i < |indexes| && indexes[i].FilterIdx? ==> indexes[i].filter.name != name
      ensures r.Err? ==> r.error == KeyNotFound || r.error == InvalidCast
      ensures r == Err(InvalidCast) ==>
                exists i :: 0 <= i < |indexes| && indexes[i].FilterIdx? && indexes[i].filter.name == name && indexes[i].filter.filterType != t
      ensures r.Ok? ==> r.value.name == name && r.value.filterType == t && exists i :: 0 <= i < |indexes| && indexes[i] == FilterIdx(r.value)
    {
      match FindFilter(indexes, name)
      case None => Err(KeyNotFound)
      case Some(x) => if x.filterType == t then Ok(x) else Err(InvalidCast)
    }

    /** With unique names, the named index has the wrong type exactly when the lookup says so. */
    lemma GetFilterableIndexInvalidCast(name: string, t: FilterType)
      requires Valid()
      ensures GetFilterableIndex(name, t) == Err(InvalidCast) <==>
                exists i :: 0 <= i < |indexes| && indexes[i].FilterIdx? && indexes[i].filter.name == name && indexes[i].filter.filterType != t
    {
      var r := GetFilterableIndex(name, t);
      if i :| 0 <= i < |indexes| && indexes[i].FilterIdx? && indexes[i].filter.name == name && indexes[i].filter.filterType != t {
        var x := FindFilter(indexes, name);
        var j :| 0 <= j < |indexes| && indexes[j] == FilterIdx(x.value);
        assert indexes[i].Name() == indexes[j].Name();
      }
    }

    /** `GetAllAsync`: the join of `keys` with the primary dictionary. */
    method GetAll(keys: seq<Key>) returns (e: FetchEnumerable<V>)
      ensures fresh(e) && e.primary == primary && e.keys == keys
    {
      e := new FetchEnumerable(primary, keys);
    }

    /** `FilterKeysOnlyAsync`: the index's `FilterAsync`, sorted keys of the matching entries. */
    method FilterKeysOnly(name: string, t: FilterType, f: FilterValue) returns (r: Result<seq<Key>>)
      ensures GetFilterableIndex(name, t).Err? ==> r == Err(GetFilterableIndex(name, t).error)
      ensures GetFilterableIndex(name, t).Ok? ==>
                var x := GetFilterableIndex(name, t).value;
                var g := SubstituteNull(f, x.useNaString, x.filterType);
                && (r.Err? <==> g.Null?) && (r.Err? ==> r.error == ArgumentNull)
                && (r.Ok? ==> forall i, j :: 0 <= i < j < |r.value| ==> r.value[i] <= r.value[j])
                && (r.Ok? ==> multiset(r.value) == multiset(Lookup(x.store, g)))
    {
      var index := GetFilterableIndex(name, t);
      if index.Err? {
        return Err(index.error);
      }
      r := index.value.Filter(f);
    }

    /** `FilterAsync`: the entries whose keys `FilterKeysOnlyAsync` returns. */
    method Filter(name: string, t: FilterType, f: FilterValue) returns (r: Result<FetchEnumerable<V>>)
      ensures GetFilterableIndex(name, t).Err? ==> r == Err(GetFilterableIndex(name, t).error)
      ensures GetFilterableIndex(name, t).Ok? ==>
                var x := GetFilterableIndex(name, t).value;
                var g := SubstituteNull(f, x.useNaString, x.filterType);
                && (r.Err? <==> g.Null?) && (r.Err? ==> r.error == ArgumentNull)
                && (r.Ok? ==> fresh(r.value) && r.value.primary == primary)
                && (r.Ok? ==> forall i, j :: 0 <= i < j < |r.value.keys| ==> r.value.keys[i] <= r.value.keys[j])
                && (r.Ok? ==> multiset(r.value.keys) == multiset(Lookup(x.store, g)))
    {
      var keys := FilterKeysOnly(name, t, f);
      if keys.Err? {
        return Err(keys.error);
      }
      var e := GetAll(keys.value);
      return Ok(e);
    }

    /** `RangeFilterKeysOnlyAsync`: the index's `RangeFilterAsync`. */
    method RangeFilterKeysOnly(name: string, t: FilterType, start: FilterValue, startType: RangeFilterType,
                               end: FilterValue, endType: RangeFilterType) returns (r: Result<seq<Key>>)
      ensures GetFilterableIndex(name, t).Err? ==> r == Err(GetFilterableIndex(name, t).error)
      ensures GetFilterableIndex(name, t).Ok? ==>
                var x := GetFilterableIndex(name, t).value;
                && (r.Err? <==> start.Null? && x.store != map[]) && (r.Err? ==> r.error == NullReference)
                && (r.Ok? ==> r.value == RangeResult(x.store, Between(start, startType, end, endType)))
    {
      var index := GetFilterableIndex(name, t);
      if index.Err? {
        return Err(index.error);
      }
      r := index.value.RangeFilter(start, startType, end, endType);
    }

    /** `RangeFilterAsync`: the entries whose keys `RangeFilterKeysOnlyAsync` returns. */
    method RangeFilter(name: string, t: FilterType, start: FilterValue, startType: RangeFilterType,
                       end: FilterValue, endType: RangeFilterType) returns (r: Result<FetchEnumerable<V>>)
      ensures GetFilterableIndex(name, t).Err? ==> r == Err(GetFilterableIndex(name, t).error)
      ensures GetFilterableIndex(name, t).Ok? ==>
                var x := GetFilterableIndex(name, t).value;
                && (r.Err? <==> start.Null? && x.store != map[]) && (r.Err? ==> r.error == NullReference)
                && (r.Ok? ==> fresh(r.value) && r.value.primary == primary)
                && (r.Ok? ==> r.value.keys == RangeResult(x.store, Between(start, startType, end, endType)))
    {
      var keys := RangeFilterKeysOnly(name, t, start, startType, end, endType);
      if keys.Err? {
        return Err(keys.error);
      }
      var e := GetAll(keys.value);
      return Ok(e);
    }

    /** `RangeToFilterKeysOnlyAsync`: the index's `RangeToFilterAsync`. */
    method RangeToFilterKeysOnly(name: string, t: FilterType, end: FilterValue, endType: RangeFilterType)
      returns (r: Result<seq<Key>>)
      ensures GetFilterableIndex(name, t).Err? ==> r == Err(GetFilterableIndex(name, t).error)
      ensures GetFilterableIndex(name, t).Ok? ==> r == Ok(RangeResult(GetFilterableIndex(name, t).value.store, UpTo(end, endType)))
    {
      var index := GetFilterableIndex(name, t);
      if index.Err? {
        return Err(index.error);
      }
      r := index.value.RangeToFilter(end, endType);
    }

    /** `RangeToFilterAsync`: the entries whose keys `RangeToFilterKeysOnlyAsync` returns. */
    method RangeToFilter(name: string, t: FilterType, end: FilterValue, endType: RangeFilterType)
      returns (r: Result<FetchEnumerable<V>>)
      ensures GetFilterableIndex(name, t).Err? ==> r == Err(GetFilterableIndex(name, t).error)
      ensures GetFilterableIndex(name, t).Ok? ==>
                && r.Ok? && fresh(r.value) && r.value.primary == primary
                && r.value.keys == RangeResult(GetFilterableIndex(name, t).value.store, UpTo(end, endType))
    {
      var keys := RangeToFilterKeysOnly(name, t, end, endType);
      if keys.Err? {
        return Err(keys.error);
      }
      var e := GetAll(keys.value);
      return Ok(e);
    }

    /** `RangeFromFilterKeysOnlyAsync`: the index's `RangeFromFilterAsync`. */
    method RangeFromFilterKeysOnly(name: string, t: FilterType, start: FilterValue, startType: RangeFilterType)
      returns (r: Result<seq<Key>>)
      ensures GetFilterableIndex(name, t).Err? ==> r == Err(GetFilterableIndex(name, t).error)
      ensures GetFilterableIndex(name, t).Ok? ==>
                var x := GetFilterableIndex(name, t).value;
                && (r.Err? <==> start.Null? && x.store != map[]) && (r.Err? ==> r.error == NullReference)
                && (r.Ok? ==> r.value == RangeResult(x.store, From(start, startType)))
    {
      var index := GetFilterableIndex(name, t);
      if index.Err? {
        return Err(index.error);
      }
      r := index.value.RangeFromFilter(start, startType);
    }

    /** `RangeFromFilterAsync`: the entries whose keys `RangeFromFilterKeysOnlyAsync` returns. */
    method RangeFromFilter(name: string, t: FilterType, start: FilterValue, startType: RangeFilterType)
      returns (r: Result<FetchEnumerable<V>>)
      ensures GetFilterableIndex(name, t).Err? ==> r == Err(GetFilterableIndex(name, t).error)
      ensures GetFilterableIndex(name, t).Ok? ==>
                var x := GetFilterableIndex(name, t).value;
                && (r.Err? <==> start.Null? && x.store != map[]) && (r.Err? ==> r.error == NullReference)
                && (r.Ok? ==> fresh(r.value) && r.value.primary == primary)
                && (r.Ok? ==> r.value.keys == RangeResult(x.store, From(start, startType)))
    {
      var keys := RangeFromFilterKeysOnly(name, t, start, startType);
      if keys.Err? {
        return Err(keys.error);
      }
      var e := GetAll(keys.value);
      return Ok(e);
    }

    /** `CreateIndexEnumerableAsync` in ordered mode: the distinct values of the named index. */
    method CreateIndexEnumerable(name: string, t: FilterType) returns (r: Result<seq<FilterValue>>)
      ensures GetFilterableIndex(name, t).Err? ==> r == Err(GetFilterableIndex(name, t).error)
      ensures GetFilterableIndex(name, t).Ok? ==> r == Ok(OrderedValues(GetFilterableIndex(name, t).value.store.Keys))
    {
      var index := GetFilterableIndex(name, t);
      if index.Err? {
        return Err(index.error);
      }
      var values := index.value.CreateEnumerable();
      return Ok(values);
    }

    /** Every collected key lies under a word of the query in one of the first `i` search indexes. */
    ghost predicate SearchHits(query: Option<string>, i: nat, items: seq<Key>)
      reads Objects()
    {
      forall k :: k in items ==>
        exists j, w :: 0 <= j < i && j < |indexes| && indexes[j].SearchIdx? && w in WordSet(query) &&
                       w in indexes[j].search.store && k in indexes[j].search.store[w]
    }

    /** Every such key of the first `i` search indexes is collected, unless `count` keys already are. */
    ghost predicate SearchCovers(query: Option<string>, count: int, i: nat, items: seq<Key>)
      reads Objects()
    {
      forall j, w, k :: 0 <= j < i && j < |indexes| && indexes[j].SearchIdx? && w in WordSet(query) &&
                        w in indexes[j].search.store && k in indexes[j].search.store[w] ==>
                          k in items || |items| >= count
    }

    /** Adding the keys one search index found for the query keeps both properties for one more index. */
    lemma SearchNext(query: Option<string>, count: int, i: nat, before: seq<Key>, partial: seq<Key>, after: seq<Key>)
      requires i < |indexes| && NoDuplicates(before)
      requires SearchHits(query, i, before) && SearchCovers(query, count, i, before)
      requires indexes[i].SearchIdx? ==>
                 && NoDuplicates(partial)
                 && (forall k :: k in partial ==>
                       exists w :: w in WordSet(query) && w in indexes[i].search.store && k in indexes[i].search.store[w])
                 && (|partial| < count ==>
                       forall w, k :: w in WordSet(query) && w in indexes[i].search.store && k in indexes[i].search.store[w] ==>
                         k in partial)
      requires after == if indexes[i].SearchIdx? then Extended(before, partial) else before
      ensures NoDuplicates(after) && SearchHits(query, i + 1, after) && SearchCovers(query, count, i + 1, after)
    {
      if indexes[i].SearchIdx? {
        ExtendedElements(before, partial);
        if |partial| >= count {
          DistinctSubsetLength(partial, after);
        }
      }
      SearchNextHits(query, i, before, partial, after);
      SearchNextCovers(query, count, i, before, partial, after);
    }

    /** The keys collected after index `i` lie under a query word in one of the first `i + 1` search indexes. */
    lemma SearchNextHits(query: Option<string>, i: nat, before: seq<Key>, partial: seq<Key>, after: seq<Key>)
      requires i < |indexes| && SearchHits(query, i, before)
      requires indexes[i].SearchIdx? ==>
                 forall k :: k in partial ==>
                   exists w :: w in WordSet(query) && w in indexes[i].search.store && k in indexes[i].search.store[w]
      requires forall k :: k in after ==> k in before || (indexes[i].SearchIdx? && k in partial)
      ensures SearchHits(query, i + 1, after)
    {
      forall k | k in after
        ensures exists j, w :: 0 <= j < i + 1 && j < |indexes| && indexes[j].SearchIdx? && w in WordSet(query) &&
                               w in indexes[j].search.store && k in indexes[j].search.store[w]
      {
        if k !in before {
          var w :| w in WordSet(query) && w in indexes[i].search.store && k in indexes[i].search.store[w];
        }
      }
    }

    /** The keys under a query word in the first `i + 1` search indexes are collected, unless `count` keys are. */
    lemma SearchNextCovers(query: Option<string>, count: int, i: nat, before: seq<Key>, partial: seq<Key>, after: seq<Key>)
      requires i < |indexes| && SearchCovers(query, count, i, before)
      requires |before| <= |after| && forall k :: k in before ==> k in after
      requires indexes[i].SearchIdx? ==>
                 && (forall k :: k in partial ==> k in after)
                 && (|partial| >= count ==> |after| >= count)
                 && (|partial| < count ==>
                       forall w, k :: w in WordSet(query) && w in indexes[i].search.store && k in indexes[i].search.store[w] ==>
                         k in partial)
      ensures SearchCovers(query, count, i + 1, after)
    {
    }


    /**
     * `SearchAsync`: `InvalidOperationException` without a searchable index; otherwise the union
     * of every searchable index's count-limited result, each key once, joined with the primary.
     * Every key is under a word of the query in some searchable index, and a union shorter than
     * `count` holds every such key.
     */
    method Search(query: Option<string>, count: int) returns (r: Result<FetchEnumerable<V>>)
      ensures r.Err? <==> !HasSearchIndex(indexes)
      ensures r.Err? ==> r.error == InvalidOperation
      ensures r.Ok? ==> fresh(r.value) && r.value.primary == primary && NoDuplicates(r.value.keys)
      ensures r.Ok? ==> forall k :: k in r.value.keys ==>
                          exists i, w :: 0 <= i < |indexes| && indexes[i].SearchIdx? && w in WordSet(query) &&
                                         w in indexes[i].search.store && k in indexes[i].search.store[w]
      ensures r.Ok? && |r.value.keys| < count ==>
                forall i, w, k :: 0 <= i < |indexes| && indexes[i].SearchIdx? && w in WordSet(query) &&
                                  w in indexes[i].search.store && k in indexes[i].search.store[w] ==>
                                    k in r.value.keys
    {
      if !HasSearchIndex(indexes) {
        return Err(InvalidOperation);
      }
      var unique := new HashSet<Key>();
      for i := 0 to |indexes|
        invariant unique.Valid()
        invariant SearchHits(query, i, unique.items) && SearchCovers(query, count, i, unique.items)
      {
        ghost var before := unique.items;
        var partial: seq<Key> := [];
        if indexes[i].SearchIdx? {
          partial := indexes[i].search.Search(query, count);
          unique.AddRange(partial);
        }
        SearchNext(query, count, i, before, partial, unique.items);
      }
      var e := GetAll(unique.items);
      return Ok(e);
    }
  }
}
