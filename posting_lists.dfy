/**
 * The content of an index collection (`IReliableDictionary2<W, TKey[]>`): a map from an indexed
 * value `W` (a word of the search index, a filter value of the filterable index) to the keys of
 * the primary entries that carry it. Both index kinds change it only through the two steps of
 * their private `AddAsync`/`RemoveAsync` loops, modelled here once.
 */
module PostingLists {
  import opened Wrappers
  import opened CollectionExtensions

  /** Primary keys (`TKey : IComparable<TKey>, IEquatable<TKey>`). */
  type Key = int

  /** An index collection: indexed value to posting list. */
  type Store<W> = map<W, seq<Key>>

  /**
   * One step of the private `AddAsync` loop: `AddOrUpdateAsync(tx, w, _ => new[] { key },
   * (_, keys) => keys.CopyAndAdd(key))`.
   */
  function AddKey<W>(m: Store<W>, w: W, key: Key): (r: Store<W>)
    ensures r.Keys == m.Keys + {w}
    ensures r[w] == if w in m then m[w] + [key] else [key]
    ensures forall v :: v in m && v != w ==> r[v] == m[v]
  {
    if w in m then m[w := Appended(m[w], key)] else m[w := [key]]
  }

  /**
   * One step of the private `RemoveAsync` loop: a missing entry is `KeyNotFoundException`, as is
   * a posting list without the key (`CopyAndRemove`); a list left empty drops the entry
   * (`TryRemoveAsync`), any other is written back (`SetAsync`).
   */
  function RemoveKey<W>(m: Store<W>, w: W, key: Key): (r: Result<Store<W>>)
    ensures r.Err? <==> w !in m || key !in m[w]
    ensures r.Err? ==> r.error == KeyNotFound
    ensures r.Ok? ==> forall v :: v in m && v != w ==> v in r.value && r.value[v] == m[v]
    ensures r.Ok? ==> r.value.Keys <= m.Keys
  {
    if w !in m then Err(KeyNotFound)
    else
      RemovedShape(m[w], key);
      match Removed(m[w], key)
      case Err(e) => Err(e)
      case Ok(rest) => if |rest| > 0 then Ok(m[w := rest]) else Ok(m - {w})
  }

  /** The private `AddAsync`: `AddKey` for each value in order. */
  function AddKeys<W>(m: Store<W>, ws: seq<W>, key: Key): Store<W>
    decreases |ws|
  {
    if ws == [] then m else AddKeys(AddKey(m, ws[0], key), ws[1..], key)
  }

  /** The private `RemoveAsync`: `RemoveKey` for each value in order, stopping at the first error. */
  function RemoveKeys<W>(m: Store<W>, ws: seq<W>, key: Key): Result<Store<W>>
    decreases |ws|
  {
    if ws == [] then Ok(m)
    else
      match RemoveKey(m, ws[0], key)
      case Err(e) => Err(e)
      case Ok(m') => RemoveKeys(m', ws[1..], key)
  }

  /** The values a sequence holds, as a set. */
  function Elements<W>(ws: seq<W>): set<W> {
    set w | w in ws
  }

  lemma ElementsCons<W>(ws: seq<W>)
    requires ws != []
    ensures Elements(ws) == {ws[0]} + Elements(ws[1..])
  {
    assert ws == [ws[0]] + ws[1..];
  }

  /**
   * The effect of the private `AddAsync` on distinct values: each of them ends up with `key`
   * appended to its old posting list, or with the list `[key]` when it had none; every other
   * entry is left as it was.
   */
  lemma {:induction false} AddKeysShape<W>(m: Store<W>, ws: seq<W>, key: Key)
    requires NoDuplicates(ws)
    ensures AddKeys(m, ws, key).Keys == m.Keys + Elements(ws)
    ensures forall w :: w in Elements(ws) ==>
              AddKeys(m, ws, key)[w] == if w in m then m[w] + [key] else [key]
    ensures forall w :: w in m && w !in Elements(ws) ==> AddKeys(m, ws, key)[w] == m[w]
    decreases |ws|
  {
    if ws != [] {
      var w := ws[0];
      ElementsCons(ws);
      assert w !in Elements(ws[1..]) by {
        forall i | 0 <= i < |ws[1..]| ensures ws[1..][i] != w {
          assert ws[1..][i] == ws[i + 1];
        }
      }
      AddKeysShape(AddKey(m, w, key), ws[1..], key);
    }
  }

  /** The indexed values of `key` in `e`, none when `key` has no entry. */
  function ValuesOf<W>(e: map<Key, set<W>>, key: Key): set<W> {
    if key in e then e[key] else {}
  }

  /**
   * The index invariant: `m` indexes exactly the pairs of `e`, which gives each primary key the
   * set of values it is indexed under. A posting list is never empty and holds each key once.
   */
  ghost predicate Coherent<W>(m: Store<W>, e: map<Key, set<W>>) {
    && (forall w :: w in m ==> m[w] != [] && NoDuplicates(m[w]))
    && (forall w, k :: w in m && k in m[w] ==> k in e && w in e[k])
    && (forall k, w :: k in e && w in e[k] ==> w in m && k in m[w])
  }

  /** The empty collection indexes nothing. */
  lemma EmptyCoherent<W>(e: map<Key, set<W>>)
    requires forall k :: k in e ==> e[k] == {}
    ensures Coherent(map[], e)
  {
  }

  /** A key whose set of values is empty may as well have no entry. */
  lemma CoherentDropEmpty<W>(m: Store<W>, e: map<Key, set<W>>, key: Key)
    requires key in e && e[key] == {}
    ensures Coherent(m, e) <==> Coherent(m, e - {key})
  {
    var e' := e - {key};
    if Coherent(m, e) {
      forall w, k | w in m && k in m[w] ensures k in e' && w in e'[k] {
        assert k in e && w in e[k];
      }
    }
    if Coherent(m, e') {
      forall w, k | w in m && k in m[w] ensures k in e && w in e[k] {
        assert k in e' && w in e'[k];
      }
      forall k, w | k in e && w in e[k] ensures w in m && k in m[w] {
        assert k in e' && w in e'[k];
      }
    }
  }

  /** Adding `key` under a value it is not yet indexed under keeps the index coherent. */
  lemma AddKeyCoherent<W>(m: Store<W>, e: map<Key, set<W>>, w: W, key: Key)
    requires Coherent(m, e) && w !in ValuesOf(e, key)
    ensures Coherent(AddKey(m, w, key), e[key := ValuesOf(e, key) + {w}])
  {
    var r, e' := AddKey(m, w, key), e[key := ValuesOf(e, key) + {w}];
    if w in m {
      assert key !in m[w];
      assert NoDuplicates(r[w]) by {
        assert r[w] == m[w] + [key];
      }
    }
    forall v, k | v in r && k in r[v] ensures k in e' && v in e'[k] {
      if v == w && k == key {
      } else if v == w {
        assert k in m[w];
      } else {
        assert k in m[v];
      }
    }
    forall k, v | k in e' && v in e'[k] ensures v in r && k in r[v] {
      if k == key && v == w {
      } else {
        assert k in e && v in e[k];
      }
    }
  }

  /**
   * Adding `key` under distinct values it is not yet indexed under keeps the index coherent,
   * with those values added to its set.
   */
  lemma {:induction false} AddKeysCoherent<W>(m: Store<W>, e: map<Key, set<W>>, ws: seq<W>, key: Key)
    requires Coherent(m, e) && NoDuplicates(ws)
    requires forall i :: 0 <= i < |ws| ==> ws[i] !in ValuesOf(e, key)
    ensures Coherent(AddKeys(m, ws, key), e[key := ValuesOf(e, key) + Elements(ws)])
    decreases |ws|
  {
    if ws == [] {
      assert ValuesOf(e, key) + Elements(ws) == ValuesOf(e, key);
      CoherentSameValues(m, e, key);
    } else {
      var w := ws[0];
      AddKeyCoherent(m, e, w, key);
      var e1 := e[key := ValuesOf(e, key) + {w}];
      forall i | 0 <= i < |ws[1..]| ensures ws[1..][i] !in ValuesOf(e1, key) {
        assert ws[1..][i] == ws[i + 1];
      }
      AddKeysCoherent(AddKey(m, w, key), e1, ws[1..], key);
      ElementsCons(ws);
      assert ValuesOf(e1, key) + Elements(ws[1..]) == ValuesOf(e, key) + Elements(ws);
      assert e1[key := ValuesOf(e, key) + Elements(ws)] == e[key := ValuesOf(e, key) + Elements(ws)];
      assert AddKeys(m, ws, key) == AddKeys(AddKey(m, w, key), ws[1..], key);
    }
  }

  /** Giving a key an explicitly empty set of values when it had none changes nothing. */
  lemma CoherentSameValues<W>(m: Store<W>, e: map<Key, set<W>>, key: Key)
    requires Coherent(m, e)
    ensures Coherent(m, e[key := ValuesOf(e, key)])
  {
    var e' := e[key := ValuesOf(e, key)];
    forall w, k | w in m && k in m[w] ensures k in e' && w in e'[k] {
      assert k in e && w in e[k];
    }
  }

  /**
   * Removing `key` from a value it is indexed under succeeds and keeps the index coherent, with
   * the value taken out of its set.
   */
  lemma RemoveKeyCoherent<W>(m: Store<W>, e: map<Key, set<W>>, w: W, key: Key)
    requires Coherent(m, e) && w in ValuesOf(e, key)
    ensures RemoveKey(m, w, key).Ok?
    ensures Coherent(RemoveKey(m, w, key).value, e[key := e[key] - {w}])
  {
    assert w in m && key in m[w];
    RemovedElements(m[w], key);
    var rest := Removed(m[w], key).value;
    var r, e' := RemoveKey(m, w, key).value, e[key := e[key] - {w}];
    forall v, k | v in r && k in r[v] ensures k in e' && v in e'[k] {
      if v == w {
        assert k in rest && k in m[w] && k != key;
      } else {
        assert k in m[v];
      }
    }
    forall k, v | k in e' && v in e'[k] ensures v in r && k in r[v] {
      assert k in e && v in e[k];
      if v == w {
        assert k != key && k in rest;
      }
    }
  }

  /**
   * Removing `key` from distinct values it is indexed under succeeds and keeps the index
   * coherent, with those values taken out of its set.
   */
  lemma {:induction false} RemoveKeysCoherent<W>(m: Store<W>, e: map<Key, set<W>>, ws: seq<W>, key: Key)
    requires Coherent(m, e) && NoDuplicates(ws)
    requires forall i :: 0 <= i < |ws| ==> ws[i] in ValuesOf(e, key)
    ensures RemoveKeys(m, ws, key).Ok?
    ensures Coherent(RemoveKeys(m, ws, key).value, e[key := ValuesOf(e, key) - Elements(ws)])
    decreases |ws|
  {
    if ws == [] {
      assert ValuesOf(e, key) - Elements(ws) == ValuesOf(e, key);
      CoherentSameValues(m, e, key);
    } else {
      var w := ws[0];
      RemoveKeyCoherent(m, e, w, key);
      var m1 := RemoveKey(m, w, key).value;
      var e1 := e[key := e[key] - {w}];
      forall i | 0 <= i < |ws[1..]| ensures ws[1..][i] in ValuesOf(e1, key) {
        assert ws[1..][i] == ws[i + 1];
      }
      RemoveKeysCoherent(m1, e1, ws[1..], key);
      ElementsCons(ws);
      assert ValuesOf(e1, key) - Elements(ws[1..]) == ValuesOf(e, key) - Elements(ws);
      assert e1[key := ValuesOf(e, key) - Elements(ws)] == e[key := ValuesOf(e, key) - Elements(ws)];
      assert RemoveKeys(m, ws, key) == RemoveKeys(m1, ws[1..], key);
    }
  }

  /**
   * On a coherent index, removing `key` from distinct values fails with `KeyNotFound` exactly
   * when one of them is a value `key` is not indexed under.
   */
  lemma {:induction false} RemoveKeysFails<W>(m: Store<W>, e: map<Key, set<W>>, ws: seq<W>, key: Key)
    requires Coherent(m, e) && NoDuplicates(ws)
    ensures RemoveKeys(m, ws, key).Err? <==> exists i :: 0 <= i < |ws| && ws[i] !in ValuesOf(e, key)
    ensures RemoveKeys(m, ws, key).Err? ==> RemoveKeys(m, ws, key).error == KeyNotFound
    decreases |ws|
  {
    if ws != [] {
      var w := ws[0];
      if w in ValuesOf(e, key) {
        RemoveKeyCoherent(m, e, w, key);
        var e1 := e[key := e[key] - {w}];
        RemoveKeysFails(RemoveKey(m, w, key).value, e1, ws[1..], key);
        forall i | 1 <= i < |ws| ensures ws[i] in ValuesOf(e1, key) <==> ws[i] in ValuesOf(e, key) {
          assert ws[i] != w;
        }
        assert forall i :: 1 <= i < |ws| ==> ws[1..][i - 1] == ws[i];
      } else {
        if w in m {
          assert key !in m[w];
        }
      }
    }
  }
}
