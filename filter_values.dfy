/**
 * What the two revisions of the filterable index (FilterableIndex.cs) share: the filter values
 * and their order, the range bounds, the null substitution of the final revision, the ordered
 * enumeration of an index collection, and the effect of the add, update and remove hooks on the
 * collection together with the invariant they keep.
 */
module FilterValues {
  import opened Wrappers
  import opened CollectionExtensions
  import opened Sorting
  import opened PostingLists

  /**
   * A filter value (`TFilter : IComparable<TFilter>, IEquatable<TFilter>`): a string, which may
   * be null, or an integer.
   */
  datatype FilterValue = Null | Str(s: string) | Int(i: int)

  /** `typeof(TFilter)`: whether the index filters on strings or on integers. */
  datatype FilterType = StringType | IntType

  /** `RangeFilterType`: whether a range bound is itself part of the range. */
  datatype RangeFilterType = Inclusive | Exclusive

  /** `NAString`, the value a null string is filed under when substitution is on. */
  const NAString: string := "**NA**"

  /** A filter projection (`Func<TKey, TValue, TFilter>`). */
  type FilterProjection<!V> = (Key, V) -> FilterValue

  /**
   * `CompareTo` as a strict order: null comes before everything (`s.CompareTo(null) > 0`),
   * strings are ordered code point by code point, integers numerically. A string and an integer
   * are never compared by the source, as an index has one filter type; they are ordered here
   * only so that the order is total.
   */
  predicate Less(a: FilterValue, b: FilterValue) {
    match (a, b)
    case (Null, Null) => false
    case (Null, _) => true
    case (Str(x), Str(y)) => StrLess(x, y)
    case (Str(_), Int(_)) => true
    case (Int(x), Int(y)) => x < y
    case _ => false
  }

  /** `CompareTo(...) <= 0`. */
  predicate LessOrEqual(a: FilterValue, b: FilterValue) {
    a == b || Less(a, b)
  }

  lemma LessIrreflexive(a: FilterValue)
    ensures !Less(a, a)
  {
    if a.Str? {
      StrLessIrreflexive(a.s);
    }
  }

  lemma LessTransitive(a: FilterValue, b: FilterValue, c: FilterValue)
    requires Less(a, b) && Less(b, c)
    ensures Less(a, c)
  {
    if a.Str? && b.Str? && c.Str? {
      StrLessTransitive(a.s, b.s, c.s);
    }
  }

  lemma LessTotal(a: FilterValue, b: FilterValue)
    ensures a == b || Less(a, b) || Less(b, a)
  {
    if a.Str? && b.Str? {
      StrLessTotal(a.s, b.s);
    }
  }

  /** The order of filter values is a strict total order. */
  lemma LessIsStrictTotalOrder()
    ensures IsStrictTotalOrder(Less)
  {
    forall a ensures !Less(a, a) {
      LessIrreflexive(a);
    }
    forall a, b, c | Less(a, b) && Less(b, c) ensures Less(a, c) {
      LessTransitive(a, b, c);
    }
    forall a, b ensures a == b || Less(a, b) || Less(b, a) {
      LessTotal(a, b);
    }
  }

  /** The ascending enumeration of a set of filter values. */
  ghost function OrderedValues(s: set<FilterValue>): (r: seq<FilterValue>)
    ensures StrictlySorted(r, Less) && NoDuplicates(r)
    ensures forall v :: v in r <==> v in s
  {
    LessIsStrictTotalOrder();
    StrictlySortedDistinct(SortedElements(s, Less), Less);
    SortedElements(s, Less)
  }

  /** Sorting distinct filter values gives the ascending enumeration of the set they make up. */
  lemma SortedDistinctValues(items: seq<FilterValue>, r: seq<FilterValue>, s: set<FilterValue>)
    requires NoDuplicates(items) && Sorted(r, Less) && multiset(r) == multiset(items)
    requires forall v :: v in items <==> v in s
    ensures r == OrderedValues(s)
  {
    LessIsStrictTotalOrder();
    SortedIsSortedElements(items, r, s, Less);
  }

  /**
   * `CreateEnumerableAsync(tx, EnumerationMode.Ordered)` of the store: its filter values in
   * ascending order.
   */
  method EnumerateOrdered(s: set<FilterValue>) returns (r: seq<FilterValue>)
    ensures r == OrderedValues(s)
  {
    var items: seq<FilterValue> := [];
    var rest := s;
    while rest != {}
      invariant rest <= s && NoDuplicates(items)
      invariant forall v :: v in items <==> v in s && v !in rest
      decreases rest
    {
      var v :| v in rest;
      items := items + [v];
      rest := rest - {v};
    }
    LessIsStrictTotalOrder();
    r := Sort(items, Less);
    SortedDistinctValues(items, r, s);
  }

  /**
   * `SetFilterValueIfNull`: a null string is replaced by `NAString` when substitution is on and
   * the index filters on strings; any other value is kept.
   */
  function SubstituteNull(f: FilterValue, useNaString: bool, filterType: FilterType): (r: FilterValue)
    ensures r == f || (f.Null? && r == Str(NAString))
    ensures useNaString && filterType == StringType ==> !r.Null?
  {
    if f.Null? && useNaString && filterType == StringType then Str(NAString) else f
  }

  /**
   * With substitution on, null and the sentinel itself are filed under the same value, and no
   * other value is; with it off, or on an integer index, every value is its own.
   */
  lemma SubstituteNullMerges(f: FilterValue, g: FilterValue, useNaString: bool, filterType: FilterType)
    ensures SubstituteNull(f, useNaString, filterType) == SubstituteNull(g, useNaString, filterType) <==>
              f == g || (useNaString && filterType == StringType && {f, g} == {Null, Str(NAString)})
    ensures SubstituteNull(f, useNaString, filterType).Null? <==> f.Null? && !(useNaString && filterType == StringType)
  {
  }

  /** The bounds of a range query. */
  datatype Bounds =
    | Between(start: FilterValue, startType: RangeFilterType, end: FilterValue, endType: RangeFilterType)
    | UpTo(end: FilterValue, endType: RangeFilterType)
    | From(start: FilterValue, startType: RangeFilterType)

  /**
   * The predicates of `RangeFilterAsync`, `RangeToFilterAsync` and `RangeFromFilterAsync`:
   * `start.CompareTo(f) <= 0` (or `< 0`) and `f.CompareTo(end) <= 0` (or `< 0`).
   */
  predicate Selects(b: Bounds, f: FilterValue) {
    && (b.UpTo? || (if b.startType == Inclusive then LessOrEqual(b.start, f) else Less(b.start, f)))
    && (b.From? || (if b.endType == Inclusive then LessOrEqual(f, b.end) else Less(f, b.end)))
  }

  /** The predicate calls `CompareTo` on a null start bound, which throws. */
  predicate StartIsNull(b: Bounds) {
    !b.UpTo? && b.start.Null?
  }

  /**
   * The bounds are chosen independently: an inclusive bound admits the value equal to it, an
   * exclusive one does not, and values strictly between the bounds are admitted either way.
   */
  lemma SelectsBounds(start: FilterValue, startType: RangeFilterType, end: FilterValue, endType: RangeFilterType, f: FilterValue)
    ensures Selects(Between(start, startType, end, endType), f) <==>
              Selects(From(start, startType), f) && Selects(UpTo(end, endType), f)
    ensures Less(start, f) && Less(f, end) ==> Selects(Between(start, startType, end, endType), f)
    ensures Selects(From(start, startType), start) <==> startType == Inclusive
    ensures Selects(UpTo(end, endType), end) <==> endType == Inclusive
  {
    LessIrreflexive(start);
    LessIrreflexive(end);
  }

  /** The posting lists under the values `vs` that `b` selects, concatenated in the order of `vs`. */
  function Collect(store: Store<FilterValue>, vs: seq<FilterValue>, b: Bounds): seq<Key>
    requires forall v :: v in vs ==> v in store
    decreases |vs|
  {
    if vs == [] then []
    else
      var last := vs[|vs| - 1];
      Collect(store, vs[..|vs| - 1], b) + (if Selects(b, last) then store[last] else [])
  }

  /** One more value extends the collected keys by its posting list when it is selected. */
  lemma CollectSnoc(store: Store<FilterValue>, vs: seq<FilterValue>, i: nat, b: Bounds)
    requires i < |vs| && forall v :: v in vs ==> v in store
    ensures Collect(store, vs[..i + 1], b) ==
            Collect(store, vs[..i], b) + (if Selects(b, vs[i]) then store[vs[i]] else [])
  {
    assert vs[..i + 1][..i] == vs[..i];
  }

  /** `RangeFilterHelper`: the selected posting lists, in ascending filter-value order. */
  ghost function RangeResult(store: Store<FilterValue>, b: Bounds): seq<Key> {
    Collect(store, OrderedValues(store.Keys), b)
  }

  lemma {:induction false} CollectMembers(store: Store<FilterValue>, vs: seq<FilterValue>, b: Bounds, k: Key)
    requires forall v :: v in vs ==> v in store
    ensures k in Collect(store, vs, b) <==> exists v :: v in vs && Selects(b, v) && k in store[v]
    decreases |vs|
  {
    if vs != [] {
      var last := vs[|vs| - 1];
      assert vs == vs[..|vs| - 1] + [last];
      CollectMembers(store, vs[..|vs| - 1], b, k);
    }
  }

  /**
   * `RangeFilterHelper` returns exactly the keys filed under a selected value: a key is in the
   * result if and only if some value the bounds admit lists it.
   */
  lemma RangeMembers(store: Store<FilterValue>, b: Bounds, k: Key)
    ensures k in RangeResult(store, b) <==> exists f :: f in store && Selects(b, f) && k in store[f]
  {
    CollectMembers(store, OrderedValues(store.Keys), b, k);
  }

  lemma {:induction false} CollectPositions(store: Store<FilterValue>, vs: seq<FilterValue>, b: Bounds)
    returns (pos: seq<nat>)
    requires forall v :: v in vs ==> v in store
    ensures |pos| == |Collect(store, vs, b)|
    ensures forall i :: 0 <= i < |pos| ==>
              pos[i] < |vs| && Selects(b, vs[pos[i]]) && Collect(store, vs, b)[i] in store[vs[pos[i]]]
    ensures forall i, j :: 0 <= i < j < |pos| ==> pos[i] <= pos[j]
    decreases |vs|
  {
    if vs == [] {
      pos := [];
    } else {
      var n := |vs| - 1;
      var last := vs[n];
      var prefix := vs[..n];
      var front := CollectPositions(store, prefix, b);
      var tail := if Selects(b, last) then store[last] else [];
      pos := front + seq(|tail|, _ => n);
      var c := Collect(store, vs, b);
      assert c == Collect(store, prefix, b) + tail;
      forall i | 0 <= i < |pos|
        ensures pos[i] < |vs| && Selects(b, vs[pos[i]]) && c[i] in store[vs[pos[i]]]
      {
        if i < |front| {
          assert vs[pos[i]] == prefix[front[i]];
        } else {
          assert c[i] == tail[i - |front|];
        }
      }
    }
  }

  /**
   * A range result is the concatenation of the selected posting lists in ascending filter-value
   * order: each of its keys can be labelled with a selected value that lists it, and the labels
   * ascend along the result.
   */
  lemma RangeOrdered(store: Store<FilterValue>, b: Bounds) returns (labels: seq<FilterValue>)
    ensures |labels| == |RangeResult(store, b)|
    ensures forall i :: 0 <= i < |labels| ==>
              labels[i] in store && Selects(b, labels[i]) && RangeResult(store, b)[i] in store[labels[i]]
    ensures forall i, j :: 0 <= i < j < |labels| ==> LessOrEqual(labels[i], labels[j])
  {
    var vs := OrderedValues(store.Keys);
    var pos := CollectPositions(store, vs, b);
    labels := seq(|pos|, i requires 0 <= i < |pos| => vs[pos[i]]);
    forall i, j | 0 <= i < j < |labels| ensures LessOrEqual(labels[i], labels[j]) {
      if pos[i] < pos[j] {
        assert Less(vs[pos[i]], vs[pos[j]]);
      }
    }
  }

  /** The value of `f` in `store`, or the empty list (`TryGetValueAsync` without a value). */
  function Lookup(store: Store<FilterValue>, f: FilterValue): (r: seq<Key>)
    ensures forall k :: k in r <==> f in store && k in store[f]
  {
    if f in store then store[f] else []
  }

  /**
   * The private `AddAsync`: `key` goes under `f`; the store rejects the null key with
   * `ArgumentNullException`.
   */
  function AddFilter(store: Store<FilterValue>, key: Key, f: FilterValue): (r: Result<Store<FilterValue>>)
    ensures r.Err? <==> f.Null?
    ensures r.Err? ==> r.error == ArgumentNull
    ensures r.Ok? ==> Lookup(r.value, f) == Lookup(store, f) + [key]
    ensures r.Ok? ==> forall g :: g != f ==> Lookup(r.value, g) == Lookup(store, g)
  {
    if f.Null? then Err(ArgumentNull) else Ok(AddKey(store, f, key))
  }

  /**
   * The private `RemoveAsync`: `key` comes out of the list under `f`, `KeyNotFoundException`
   * when the entry or the key is missing, `ArgumentNullException` for the null key.
   */
  function RemoveFilter(store: Store<FilterValue>, key: Key, f: FilterValue): (r: Result<Store<FilterValue>>)
    ensures r.Err? <==> f.Null? || key !in Lookup(store, f)
    ensures r.Err? ==> r.error == if f.Null? then ArgumentNull else KeyNotFound
    ensures r.Ok? ==> forall g :: g != f ==> Lookup(r.value, g) == Lookup(store, g)
  {
    if f.Null? then Err(ArgumentNull) else RemoveKey(store, f, key)
  }

  /**
   * The update hook: nothing when the old and new values are equal; otherwise the key is
   * removed under the old value, then added under the new one.
   */
  function UpdateFilter(store: Store<FilterValue>, key: Key, oldFilter: FilterValue, newFilter: FilterValue)
    : (r: Result<Store<FilterValue>>)
    ensures oldFilter == newFilter ==> r == Ok(store)
    ensures oldFilter != newFilter ==>
              (r.Err? <==> oldFilter.Null? || key !in Lookup(store, oldFilter) || newFilter.Null?)
    ensures r.Ok? && oldFilter != newFilter ==>
              && key in Lookup(r.value, newFilter)
              && forall g :: g != oldFilter && g != newFilter ==> Lookup(r.value, g) == Lookup(store, g)
  {
    if oldFilter == newFilter then Ok(store)
    else
      match RemoveFilter(store, key, oldFilter)
      case Err(e) => Err(e)
      case Ok(m) => AddFilter(m, key, newFilter)
  }

  /**
   * A key added under "John" and then moved to "Jane": looking up "John" finds nothing and
   * looking up "Jane" finds the key alone.
   */
  lemma RenameMovesKey(key: Key)
    ensures AddFilter(map[], key, Str("John")).Ok?
    ensures var m := AddFilter(map[], key, Str("John")).value;
            && UpdateFilter(m, key, Str("John"), Str("Jane")).Ok?
            && Lookup(UpdateFilter(m, key, Str("John"), Str("Jane")).value, Str("John")) == []
            && Lookup(UpdateFilter(m, key, Str("John"), Str("Jane")).value, Str("Jane")) == [key]
  {
    var m := AddFilter(map[], key, Str("John")).value;
    assert Str("John") != Str("Jane") by {
      assert "John"[1] != "Jane"[1];
    }
    assert m == map[Str("John") := [key]];
    RemovedShape([key], key);
    assert Removed([key], key) == Ok([]);
    assert RemoveFilter(m, key, Str("John")) == Ok(map[]);
  }

  /** The value sets a filter index must hold: each key is filed under its one value. */
  function Expected(values: map<Key, FilterValue>): map<Key, set<FilterValue>> {
    map k | k in values :: {values[k]}
  }

  /**
   * The add hook keeps a filter index coherent: adding a new key under a non-null value
   * succeeds, and the index then files that key under that value.
   */
  lemma AddFilterCoherent(store: Store<FilterValue>, values: map<Key, FilterValue>, key: Key, f: FilterValue)
    requires Coherent(store, Expected(values)) && key !in values && !f.Null?
    ensures AddFilter(store, key, f).Ok?
    ensures Coherent(AddFilter(store, key, f).value, Expected(values[key := f]))
  {
    var e := Expected(values);
    AddKeyCoherent(store, e, f, key);
    var e1, e2 := e[key := ValuesOf(e, key) + {f}], Expected(values[key := f]);
    assert ValuesOf(e, key) == {};
    assert e1.Keys == e2.Keys;
    forall k | k in e2 ensures e1[k] == e2[k] {
    }
    assert e1 == e2;
  }

  /**
   * The remove hook keeps a filter index coherent: removing a present key under its non-null
   * value succeeds, and the index then no longer files it.
   */
  lemma RemoveFilterCoherent(store: Store<FilterValue>, values: map<Key, FilterValue>, key: Key)
    requires Coherent(store, Expected(values)) && key in values && !values[key].Null?
    ensures RemoveFilter(store, key, values[key]).Ok?
    ensures Coherent(RemoveFilter(store, key, values[key]).value, Expected(values - {key}))
  {
    var e := Expected(values);
    var f := values[key];
    RemoveKeyCoherent(store, e, f, key);
    var m := RemoveFilter(store, key, f).value;
    CoherentDropEmpty(m, e[key := e[key] - {f}], key);
    assert e[key := e[key] - {f}] - {key} == Expected(values - {key});
  }

  /**
   * The update hook keeps a filter index coherent: moving a present key from its non-null value
   * to another non-null value succeeds, and the index then files it under the new value only.
   */
  lemma UpdateFilterCoherent(store: Store<FilterValue>, values: map<Key, FilterValue>, key: Key, f: FilterValue)
    requires Coherent(store, Expected(values)) && key in values && !values[key].Null? && !f.Null?
    ensures UpdateFilter(store, key, values[key], f).Ok?
    ensures Coherent(UpdateFilter(store, key, values[key], f).value, Expected(values[key := f]))
  {
    if values[key] == f {
      assert values[key := f] == values;
    } else {
      RemoveFilterCoherent(store, values, key);
      var m := RemoveFilter(store, key, values[key]).value;
      AddFilterCoherent(m, values - {key}, key, f);
      assert (values - {key})[key := f] == values[key := f];
    }
  }

  /**
   * On a coherent index, removing a key under a value it is not filed under fails with
   * `KeyNotFound`.
   */
  lemma RemoveFilterMissing(store: Store<FilterValue>, values: map<Key, FilterValue>, key: Key, f: FilterValue)
    requires Coherent(store, Expected(values)) && !f.Null?
    requires key !in values || values[key] != f
    ensures RemoveFilter(store, key, f) == Err(KeyNotFound)
  {
    assert f in store && key in store[f] ==> f in ValuesOf(Expected(values), key);
  }

  /**
   * Removing the last key under a value drops the entry, so the value no longer appears in
   * the enumeration of the index's values.
   */
  lemma RemoveLastKeyDropsValue(store: Store<FilterValue>, key: Key, f: FilterValue)
    requires !f.Null? && f in store && store[f] == [key]
    ensures RemoveFilter(store, key, f).Ok?
    ensures f !in RemoveFilter(store, key, f).value
    ensures f !in OrderedValues(RemoveFilter(store, key, f).value.Keys)
  {
    var l := store[f];
    assert IndexOf(l, key) == 0;
    assert l[..0] + l[1..] == [];
  }

  /**
   * On a coherent index, the posting list under a non-null value holds exactly the keys whose
   * filter value it is.
   */
  lemma LookupCoherent(store: Store<FilterValue>, values: map<Key, FilterValue>, f: FilterValue, k: Key)
    requires Coherent(store, Expected(values))
    ensures k in Lookup(store, f) <==> k in values && values[k] == f
  {
    if k in values && values[k] == f {
      assert f in Expected(values)[k];
    }
    if k in Lookup(store, f) {
      assert f in Expected(values)[k];
    }
  }

  lemma DistinctConcat(a: seq<Key>, t: seq<Key>)
    requires NoDuplicates(a) && NoDuplicates(t)
    requires forall k :: k in t ==> k !in a
    ensures NoDuplicates(a + t)
  {
    var c := a + t;
    forall i, j | 0 <= i < j < |c| ensures c[i] != c[j] {
      if j < |a| {
        assert c[i] == a[i] && c[j] == a[j];
      } else if i < |a| {
        assert c[i] == a[i] && c[j] == t[j - |a|] && t[j - |a|] in t;
      } else {
        assert c[i] == t[i - |a|] && c[j] == t[j - |a|];
      }
    }
  }

  lemma {:induction false} CollectDistinct(store: Store<FilterValue>, vs: seq<FilterValue>, b: Bounds)
    requires forall v :: v in vs ==> v in store
    requires NoDuplicates(vs)
    requires forall w :: w in store ==> NoDuplicates(store[w])
    requires forall v, w, k :: v in store && w in store && k in store[v] && k in store[w] ==> v == w
    ensures NoDuplicates(Collect(store, vs, b))
    decreases |vs|
  {
    if vs != [] {
      var n := |vs| - 1;
      var last := vs[n];
      var prefix := vs[..n];
      CollectDistinct(store, prefix, b);
      var tail := if Selects(b, last) then store[last] else [];
      forall k | k in tail ensures k !in Collect(store, prefix, b) {
        CollectMembers(store, prefix, b, k);
        forall v | v in prefix && Selects(b, v) ensures k !in store[v] {
          var i :| 0 <= i < n && prefix[i] == v;
          assert vs[i] == v && v != last;
        }
      }
      DistinctConcat(Collect(store, prefix, b), tail);
    }
  }

  /**
   * On a coherent index each key is filed under one value, so a range result lists each key
   * once ("each key should appear exactly once in the index").
   */
  lemma RangeResultDistinct(store: Store<FilterValue>, values: map<Key, FilterValue>, b: Bounds)
    requires Coherent(store, Expected(values))
    ensures NoDuplicates(RangeResult(store, b))
  {
    forall v, w, k | v in store && w in store && k in store[v] && k in store[w] ensures v == w {
      assert v in Expected(values)[k] && w in Expected(values)[k];
    }
    CollectDistinct(store, OrderedValues(store.Keys), b);
  }
}
