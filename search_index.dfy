/**
 * The full-text search index (SearchableIndex.cs): a collection from lower-cased word to the
 * keys of the primary entries whose projected text contains that word, kept up to date by the
 * add, update, remove and clear hooks, and a count-limited union query over it.
 */
module SearchIndexes {
  import opened Wrappers
  import opened CollectionExtensions
  import opened Tokenizer
  import opened PostingLists
  import opened StateManagers

  /** The projection of a search index: the text of an entry, possibly null. */
  type TextProjection<!V> = (Key, V) -> Option<string>

  /**
   * `Enumerable.Except` on a duplicate-free first sequence: the elements of `a` that are not in
   * `b`, in their order.
   */
  function Except<T(==, !new)>(a: seq<T>, b: seq<T>): (r: seq<T>)
    ensures forall x :: x in r <==> x in a && x !in b
    ensures NoDuplicates(a) ==> NoDuplicates(r)
    ensures (forall x :: x in a ==> x in b) ==> r == []
  {
    if a == [] then [] else (if a[0] in b then [] else [a[0]]) + Except(a[1..], b)
  }

  /** `Enumerable.Take`: the first `count` items, none when `count` is below one. */
  function Take<T>(s: seq<T>, count: int): (r: seq<T>)
    ensures |r| == if count <= 0 then 0 else if count < |s| then count else |s|
    ensures r == s[..|r|]
  {
    if count <= 0 then [] else if count < |s| then s[..count] else s
  }

  /** The word sets the index must hold for a primary map: each key's projected words. */
  ghost function Expected<V>(property: TextProjection<V>, primary: map<Key, V>): map<Key, set<string>> {
    map k | k in primary :: WordSet(property(k, primary[k]))
  }

  /** The distinct sorted words of an entry, as `GetDistinctWords` returns them. */
  ghost function EntryWords<V>(property: TextProjection<V>, key: Key, value: V): seq<string> {
    SortedWords(WordSet(property(key, value)))
  }

  /** The collection after the add hook. */
  ghost function AddedStore<V>(store: Store<string>, property: TextProjection<V>, key: Key, value: V): Store<string> {
    AddKeys(store, EntryWords(property, key, value), key)
  }

  /**
   * The collection after the update hook: `key` taken out of the words only the old text has,
   * then added under the words only the new text has.
   */
  ghost function UpdatedStore<V>(store: Store<string>, property: TextProjection<V>, key: Key, oldValue: V, newValue: V)
    : Result<Store<string>>
  {
    var oldWords, newWords := EntryWords(property, key, oldValue), EntryWords(property, key, newValue);
    match RemoveKeys(store, Except(oldWords, newWords), key)
    case Err(e) => Err(e)
    case Ok(m) => Ok(AddKeys(m, Except(newWords, oldWords), key))
  }

  /** The collection after the remove hook. */
  ghost function RemovedStore<V>(store: Store<string>, property: TextProjection<V>, key: Key, value: V): Result<Store<string>> {
    RemoveKeys(store, EntryWords(property, key, value), key)
  }

  /** Every collected key lies under some word of the query. */
  ghost predicate OnlyHits(store: Store<string>, query: Option<string>, items: seq<Key>) {
    forall k :: k in items ==> exists w :: w in WordSet(query) && w in store && k in store[w]
  }

  /** Every key under the first `i` scanned words has been collected. */
  ghost predicate CoversFirst(store: Store<string>, words: seq<string>, i: nat, items: seq<Key>) {
    forall j, k :: 0 <= j < i && j < |words| && words[j] in store && k in store[words[j]] ==> k in items
  }

  /** Scanning one more word of the query adds the keys under it, if any, and nothing else. */
  lemma SearchStep(store: Store<string>, query: Option<string>, words: seq<string>, i: nat,
                   before: seq<Key>, after: seq<Key>)
    requires i < |words| && words[i] in WordSet(query) && NoDuplicates(before)
    requires OnlyHits(store, query, before) && CoversFirst(store, words, i, before)
    requires after == if words[i] in store then Extended(before, store[words[i]]) else before
    ensures NoDuplicates(after) && OnlyHits(store, query, after) && CoversFirst(store, words, i + 1, after)
  {
    if words[i] in store {
      ExtendedElements(before, store[words[i]]);
    }
  }

  /**
   * When the scan ends, either after the last word or with at least `count` keys, the first
   * `count` of them are a duplicate-free selection of hits, and all hits when fewer than `count`.
   */
  lemma SearchDone(store: Store<string>, query: Option<string>, words: seq<string>, i: nat,
                   items: seq<Key>, count: int)
    requires NoDuplicates(items) && OnlyHits(store, query, items) && CoversFirst(store, words, i, items)
    requires forall w :: w in words <==> w in WordSet(query)
    requires i == |words| || |items| >= count
    ensures var keys := Take(items, count);
            && NoDuplicates(keys)
            && |keys| <= (if count < 0 then 0 else count)
            && (forall k :: k in keys ==> exists w :: w in WordSet(query) && w in store && k in store[w])
            && (|keys| < count ==>
                  forall w, k :: w in WordSet(query) && w in store && k in store[w] ==> k in keys)
  {
    var keys := Take(items, count);
    assert forall k :: k in keys ==> k in items;
    if |keys| < count {
      assert keys == items;
      forall w, k | w in WordSet(query) && w in store && k in store[w] ensures k in keys {
        var j :| 0 <= j < |words| && words[j] == w;
      }
    }
  }

  class SearchableIndex<V> {
    const name: string
    const property: TextProjection<V>
    /** The content of the index collection `_index`. */
    var store: Store<string>

    constructor (name: string, property: TextProjection<V>)
      ensures this.name == name && this.property == property && store == map[]
    {
      this.name := name;
      this.property := property;
      store := map[];
    }

    /** The constructor's argument checks: a null name or projection is `ArgumentNullException`. */
    static method Create(name: Option<string>, property: Option<TextProjection<V>>) returns (r: Result<SearchableIndex<V>>)
      ensures r.Err? <==> name.None? || property.None?
      ensures r.Err? ==> r.error == ArgumentNull
      ensures r.Ok? ==> fresh(r.value) && r.value.name == name.value && r.value.property == property.value
      ensures r.Ok? ==> r.value.store == map[]
    {
      if name.None? || property.None? {
        return Err(ArgumentNull);
      }
      var index := new SearchableIndex(name.value, property.value);
      return Ok(index);
    }

    /** The name of this index's collection below `baseName`. */
    function IndexName(baseName: string): (r: string)
      ensures |baseName| + |name| < |r| && r[..|baseName|] == baseName && r[|r| - |name|..] == name
    {
      IndexCollectionName(baseName, "search", name)
    }

    /**
     * `SearchAsync`: the keys under the words of the query, each once, at most `count` of them.
     * The words are scanned in order and the scan stops as soon as `count` keys are collected,
     * so a result shorter than `count` holds every key under every word of the query.
     */
    method Search(query: Option<string>, count: int) returns (keys: seq<Key>)
      ensures NoDuplicates(keys)
      ensures |keys| <= if count < 0 then 0 else count
      ensures forall k :: k in keys ==> exists w :: w in WordSet(query) && w in store && k in store[w]
      ensures |keys| < count ==>
                forall w, k :: w in WordSet(query) && w in store && k in store[w] ==> k in keys
    {
      var unique := new HashSet<Key>();
      var words := GetDistinctWords(query);
      var i := 0;
      while i < |words|
        invariant 0 <= i <= |words|
        invariant unique.Valid()
        invariant OnlyHits(store, query, unique.items) && CoversFirst(store, words, i, unique.items)
      {
        var word := words[i];
        ghost var before := unique.items;
        if word in store {
          unique.AddRange(store[word]);
        }
        SearchStep(store, query, words, i, before, unique.items);
        i := i + 1;
        if unique.Count() >= count {
          break;
        }
      }
      SearchDone(store, query, words, i, unique.items, count);
      keys := Take(unique.items, count);
    }

    /** The private `AddAsync`: adds `key` under each word, in order. */
    method AddWords(key: Key, words: seq<string>)
      modifies this
      ensures store == AddKeys(old(store), words, key)
    {
      for i := 0 to |words|
        invariant AddKeys(old(store), words, key) == AddKeys(store, words[i..], key)
      {
        assert words[i..][1..] == words[i + 1..];
        var word := words[i];
        if word in store {
          store := store[word := Appended(store[word], key)];
        } else {
          store := store[word := [key]];
        }
      }
    }

    /**
     * The private `RemoveAsync`: takes `key` out of the posting list of each word, in order; a
     * missing entry or a list without the key is `KeyNotFoundException`.
     */
    method RemoveWords(key: Key, words: seq<string>) returns (r: Result<()>)
      modifies this
      ensures r.Ok? <==> RemoveKeys(old(store), words, key).Ok?
      ensures r.Err? ==> r.error == RemoveKeys(old(store), words, key).error
      ensures r.Ok? ==> store == RemoveKeys(old(store), words, key).value
    {
      for i := 0 to |words|
        invariant RemoveKeys(old(store), words, key) == RemoveKeys(store, words[i..], key)
      {
        assert words[i..][1..] == words[i + 1..];
        var word := words[i];
        if word !in store {
          return Err(KeyNotFound);
        }
        var updated := Removed(store[word], key);
        if updated.Err? {
          return Err(updated.error);
        }
        if |updated.value| > 0 {
          store := store[word := updated.value];
        } else {
          store := store - {word};
        }
      }
      return Ok(());
    }

    /** The add hook: `key` goes under every word of the entry's projected text. */
    method OnAdd(key: Key, value: V)
      modifies this
      ensures store == AddedStore(old(store), property, key, value)
    {
      var words := GetDistinctWords(property(key, value));
      AddWords(key, words);
    }

    /** The update hook: only the words that differ between the old and new text are touched. */
    method OnUpdate(key: Key, oldValue: V, newValue: V) returns (r: Result<()>)
      modifies this
      ensures r.Ok? <==> UpdatedStore(old(store), property, key, oldValue, newValue).Ok?
      ensures r.Err? ==> r.error == UpdatedStore(old(store), property, key, oldValue, newValue).error
      ensures r.Ok? ==> store == UpdatedStore(old(store), property, key, oldValue, newValue).value
    {
      var oldWords := GetDistinctWords(property(key, oldValue));
      var newWords := GetDistinctWords(property(key, newValue));
      var wordsToRemove := Except(oldWords, newWords);
      var wordsToAdd := Except(newWords, oldWords);
      r := RemoveWords(key, wordsToRemove);
      if r.Ok? {
        AddWords(key, wordsToAdd);
      }
    }

    /** The remove hook: `key` is taken out from under every word of the entry's projected text. */
    method OnRemove(key: Key, value: V) returns (r: Result<()>)
      modifies this
      ensures r.Ok? <==> RemovedStore(old(store), property, key, value).Ok?
      ensures r.Err? ==> r.error == RemovedStore(old(store), property, key, value).error
      ensures r.Ok? ==> store == RemovedStore(old(store), property, key, value).value
    {
      var words := GetDistinctWords(property(key, value));
      r := RemoveWords(key, words);
    }

    /** The clear hook: the collection is emptied. */
    method OnClear()
      modifies this
      ensures store == map[]
    {
      store := map[];
    }

    /** `TryGetIndexAsync`: binds to the collection when the registry holds it. */
    method TryGetIndex(manager: StateManager, baseName: string) returns (found: bool)
      ensures found <==> IndexName(baseName) in manager.names
    {
      found := IndexName(baseName) in manager.names;
    }

    /**
     * `GetOrAddIndexAsync`: the registry holds the collection afterwards; a collection created
     * here starts empty.
     */
    method GetOrAddIndex(manager: StateManager, baseName: string)
      modifies manager, this
      ensures manager.names == old(manager.names) + {IndexName(baseName)}
      ensures store == if IndexName(baseName) in old(manager.names) then old(store) else map[]
    {
      if IndexName(baseName) !in manager.names {
        store := map[];
      }
      manager.names := manager.names + {IndexName(baseName)};
    }

    /** `RemoveIndexAsync`: the registry drops the collection and its content is gone. */
    method RemoveIndex(manager: StateManager, baseName: string)
      modifies manager, this
      ensures manager.names == old(manager.names) - {IndexName(baseName)}
      ensures store == map[]
    {
      manager.names := manager.names - {IndexName(baseName)};
      store := map[];
    }
  }

  /**
   * The add hook keeps the index coherent: on a coherent index, adding an entry for a new key
   * yields the index of the primary map with that entry.
   */
  lemma AddedStoreCoherent<V>(store: Store<string>, property: TextProjection<V>, primary: map<Key, V>, key: Key, value: V)
    requires Coherent(store, Expected(property, primary)) && key !in primary
    ensures Coherent(AddedStore(store, property, key, value), Expected(property, primary[key := value]))
  {
    var e := Expected(property, primary);
    var ws := EntryWords(property, key, value);
    AddKeysCoherent(store, e, ws, key);
    assert Elements(ws) == WordSet(property(key, value));
    var e1, e2 := e[key := ValuesOf(e, key) + Elements(ws)], Expected(property, primary[key := value]);
    assert e1.Keys == e2.Keys;
    forall k | k in e2 ensures e1[k] == e2[k] {
      if k == key {
        assert ValuesOf(e, key) == {};
      }
    }
    assert e1 == e2;
  }

  /**
   * The update hook keeps the index coherent: on a coherent index, replacing the value of a
   * present key succeeds and yields the index of the updated primary map.
   */
  lemma UpdatedStoreCoherent<V>(store: Store<string>, property: TextProjection<V>, primary: map<Key, V>, key: Key, newValue: V)
    requires Coherent(store, Expected(property, primary)) && key in primary
    ensures UpdatedStore(store, property, key, primary[key], newValue).Ok?
    ensures Coherent(UpdatedStore(store, property, key, primary[key], newValue).value,
                     Expected(property, primary[key := newValue]))
  {
    var e := Expected(property, primary);
    var oldWords, newWords := EntryWords(property, key, primary[key]), EntryWords(property, key, newValue);
    var remove, add := Except(oldWords, newWords), Except(newWords, oldWords);
    RemoveKeysCoherent(store, e, remove, key);
    var m := RemoveKeys(store, remove, key).value;
    var e1 := e[key := ValuesOf(e, key) - Elements(remove)];
    AddKeysCoherent(m, e1, add, key);
    assert ValuesOf(e1, key) + Elements(add) == WordSet(property(key, newValue));
    assert e1[key := ValuesOf(e1, key) + Elements(add)] == Expected(property, primary[key := newValue]);
  }

  /**
   * The remove hook keeps the index coherent: on a coherent index, removing a present key with
   * its current value succeeds and yields the index of the primary map without it.
   */
  lemma RemovedStoreCoherent<V>(store: Store<string>, property: TextProjection<V>, primary: map<Key, V>, key: Key)
    requires Coherent(store, Expected(property, primary)) && key in primary
    ensures RemovedStore(store, property, key, primary[key]).Ok?
    ensures Coherent(RemovedStore(store, property, key, primary[key]).value, Expected(property, primary - {key}))
  {
    var e := Expected(property, primary);
    var ws := EntryWords(property, key, primary[key]);
    RemoveKeysCoherent(store, e, ws, key);
    var e1 := e[key := ValuesOf(e, key) - Elements(ws)];
    assert ValuesOf(e, key) - Elements(ws) == {};
    CoherentDropEmpty(RemovedStore(store, property, key, primary[key]).value, e1, key);
    assert e1 - {key} == Expected(property, primary - {key});
  }

  /**
   * The remove hook fails with `KeyNotFound` on a coherent index when the key is not indexed but
   * its value has words: some word's posting list lacks it.
   */
  lemma RemoveUnindexedFails<V>(store: Store<string>, property: TextProjection<V>, primary: map<Key, V>, key: Key, value: V)
    requires Coherent(store, Expected(property, primary)) && key !in primary
    requires WordSet(property(key, value)) != {}
    ensures RemovedStore(store, property, key, value).Err?
    ensures RemovedStore(store, property, key, value).error == KeyNotFound
  {
    var ws := EntryWords(property, key, value);
    RemoveKeysFails(store, Expected(property, primary), ws, key);
    var w :| w in WordSet(property(key, value));
    var i :| 0 <= i < |ws| && ws[i] == w;
  }

  /** When the old and new text have the same words, the update hook writes nothing. */
  lemma UpdateSameWordsNoWrites<V>(store: Store<string>, property: TextProjection<V>, key: Key, oldValue: V, newValue: V)
    requires WordSet(property(key, oldValue)) == WordSet(property(key, newValue))
    ensures UpdatedStore(store, property, key, oldValue, newValue) == Ok(store)
  {
    var ws := EntryWords(property, key, oldValue);
    assert Except(ws, ws) == [];
    assert RemoveKeys(store, [], key) == Ok(store);
  }

  /**
   * The add hook, seen entry by entry: every word of the new entry's text ends up with `key`
   * appended to its posting list, or with the list `[key]` when it had none; other words keep
   * their lists.
   */
  lemma AddedStoreShape<V>(store: Store<string>, property: TextProjection<V>, key: Key, value: V)
    ensures forall w :: w in WordSet(property(key, value)) ==>
              w in AddedStore(store, property, key, value) &&
              AddedStore(store, property, key, value)[w] == if w in store then store[w] + [key] else [key]
    ensures forall w :: w in store && w !in WordSet(property(key, value)) ==>
              w in AddedStore(store, property, key, value) && AddedStore(store, property, key, value)[w] == store[w]
  {
    var ws := EntryWords(property, key, value);
    AddKeysShape(store, ws, key);
    assert Elements(ws) == WordSet(property(key, value));
  }
}
