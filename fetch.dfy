/**
 * The join of index hits with the primary dictionary (DictionaryFetchAsyncEnumerable.cs): an
 * enumerable over a fixed sequence of keys whose enumerators look every key up in the primary
 * dictionary, yield the key with the value found and skip keys the dictionary no longer holds.
 */
module Fetch {
  import opened Wrappers
  import opened PostingLists

  /** The primary dictionary: its entries, which the join reads, and its value comparer. */
  class PrimaryStore<V> {
    var entries: map<Key, V>
    /** The value comparer the dictionary's conditional update uses; it may call distinct values equal. */
    const valueEquals: (V, V) -> bool

    constructor (entries: map<Key, V>, valueEquals: (V, V) -> bool)
      ensures this.entries == entries && this.valueEquals == valueEquals
    {
      this.entries := entries;
      this.valueEquals := valueEquals;
    }
  }

  /** The pairs the enumeration yields: the keys found in `primary`, in order, with their values. */
  function Join<V>(keys: seq<Key>, primary: map<Key, V>): (r: seq<(Key, V)>)
    ensures |r| <= |keys|
    ensures forall p :: p in r ==> p.0 in primary && primary[p.0] == p.1
  {
    if keys == [] then []
    else (if keys[0] in primary then [(keys[0], primary[keys[0]])] else []) + Join(keys[1..], primary)
  }

  /** Joining a concatenation joins each part. */
  lemma {:induction false} JoinAppend<V>(a: seq<Key>, b: seq<Key>, primary: map<Key, V>)
    ensures Join(a + b, primary) == Join(a, primary) + Join(b, primary)
    decreases |a|
  {
    if a == [] {
      assert a + b == b;
    } else {
      assert (a + b)[0] == a[0] && (a + b)[1..] == a[1..] + b;
      JoinAppend(a[1..], b, primary);
    }
  }

  /**
   * The join yields no more pairs than keys, each pair holds a key of the input with exactly the
   * value the dictionary holds for it, and every input key the dictionary holds is yielded.
   */
  lemma {:induction false} JoinMembers<V>(keys: seq<Key>, primary: map<Key, V>)
    ensures |Join(keys, primary)| <= |keys|
    ensures forall p :: p in Join(keys, primary) ==> p.0 in keys && p.0 in primary && p.1 == primary[p.0]
    ensures forall k :: k in keys && k in primary ==> (k, primary[k]) in Join(keys, primary)
    decreases |keys|
  {
    if keys != [] {
      JoinMembers(keys[1..], primary);
      assert keys == [keys[0]] + keys[1..];
    }
  }

  /**
   * The yielded keys are a subsequence of the input: `pos` gives, for every yielded pair, the
   * strictly increasing position of its key in the input.
   */
  lemma {:induction false} JoinSubsequence<V>(keys: seq<Key>, primary: map<Key, V>) returns (pos: seq<nat>)
    ensures |pos| == |Join(keys, primary)|
    ensures forall i :: 0 <= i < |pos| ==>
                pos[i] < |keys| && keys[pos[i]] in primary && Join(keys, primary)[i] == (keys[pos[i]], primary[keys[pos[i]]])
    ensures forall i, j :: 0 <= i < j < |pos| ==> pos[i] < pos[j]
    decreases |keys|
  {
    if keys == [] {
      return [];
    }
    var rest := JoinSubsequence(keys[1..], primary);
    var shifted := seq(|rest|, i requires 0 <= i < |rest| => rest[i] + 1);
    if keys[0] in primary {
      pos := [0] + shifted;
    } else {
      pos := shifted;
    }
  }

  /** The keys yielded when every input key is present: all of them, in order. */
  lemma {:induction false} JoinAllPresent<V>(keys: seq<Key>, primary: map<Key, V>)
    requires forall i :: 0 <= i < |keys| ==> keys[i] in primary
    ensures |Join(keys, primary)| == |keys|
    ensures forall i :: 0 <= i < |keys| ==> Join(keys, primary)[i] == (keys[i], primary[keys[i]])
    decreases |keys|
  {
    if keys != [] {
      JoinAllPresent(keys[1..], primary);
    }
  }

  /** `DictionaryFetchAsyncEnumerator`: a cursor over the keys and the current pair. */
  class FetchEnumerator<V> {
    const primary: PrimaryStore<V>
    const keys: seq<Key>
    /** How many keys the key enumerator has consumed. */
    var cursor: nat
    /** `Current`: nothing before the first successful move. */
    var current: Option<(Key, V)>

    ghost predicate Valid()
      reads this
    {
      cursor <= |keys|
    }

    constructor (primary: PrimaryStore<V>, keys: seq<Key>)
      ensures Valid() && this.primary == primary && this.keys == keys
      ensures cursor == 0 && current == None
    {
      this.primary := primary;
      this.keys := keys;
      cursor := 0;
      current := None;
    }

    /**
     * `MoveNextAsync`: advances to the next key the dictionary holds and makes it current, with
     * its value, skipping the keys in between; false once the keys are exhausted. The keys passed
     * over yield exactly the new current pair.
     */
    method MoveNext() returns (moved: bool)
      requires Valid()
      modifies this
      ensures Valid() && old(cursor) <= cursor
      ensures moved ==> current.Some? && Join(keys[old(cursor)..cursor], primary.entries) == [current.value]
      ensures !moved ==> cursor == |keys| && Join(keys[old(cursor)..], primary.entries) == [] && current == old(current)
      decreases |keys| - cursor
    {
      if cursor < |keys| {
        var k := keys[cursor];
        cursor := cursor + 1;
        assert keys[old(cursor)..cursor] == [k];
        if k !in primary.entries {
          moved := MoveNext();
          JoinAppend([k], keys[old(cursor) + 1..cursor], primary.entries);
          assert keys[old(cursor)..cursor] == [k] + keys[old(cursor) + 1..cursor];
          if !moved {
            assert keys[old(cursor)..] == [k] + keys[old(cursor) + 1..];
            JoinAppend([k], keys[old(cursor) + 1..], primary.entries);
          }
          return;
        }
        current := Some((k, primary.entries[k]));
        return true;
      }
      return false;
    }

    /** `Reset`: the key enumerator starts over. */
    method Reset()
      modifies this
      ensures Valid() && cursor == 0 && current == old(current)
    {
      cursor := 0;
    }
  }

  /** `DictionaryFetchAsyncEnumerable`: the primary dictionary and the keys to fetch. */
  class FetchEnumerable<V> {
    const primary: PrimaryStore<V>
    const keys: seq<Key>

    constructor (primary: PrimaryStore<V>, keys: seq<Key>)
      ensures this.primary == primary && this.keys == keys
    {
      this.primary := primary;
      this.keys := keys;
    }

    /** `GetAsyncEnumerator`: a fresh cursor over the same keys on every call. */
    method GetEnumerator() returns (e: FetchEnumerator<V>)
      ensures fresh(e) && e.Valid() && e.primary == primary && e.keys == keys
      ensures e.cursor == 0 && e.current == None
    {
      e := new FetchEnumerator(primary, keys);
    }
  }

  /**
   * Enumerating to the end, as a consumer of the enumerable does: the pairs yielded are the
   * join of the keys with the dictionary, and the dictionary is only read.
   */
  method ReadAll<V>(source: FetchEnumerable<V>) returns (pairs: seq<(Key, V)>)
    ensures pairs == Join(source.keys, source.primary.entries)
  {
    var e := source.GetEnumerator();
    pairs := [];
    var moved := true;
    while moved
      invariant e.Valid() && e.keys == source.keys && e.primary == source.primary
      invariant moved ==> pairs == Join(e.keys[..e.cursor], e.primary.entries)
      invariant !moved ==> pairs == Join(e.keys, e.primary.entries)
      decreases |e.keys| - e.cursor, moved
    {
      ghost var before := e.cursor;
      moved := e.MoveNext();
      JoinAppend(e.keys[..before], e.keys[before..e.cursor], e.primary.entries);
      assert e.keys[..before] + e.keys[before..e.cursor] == e.keys[..e.cursor];
      if moved {
        pairs := pairs + [e.current.value];
      } else {
        JoinAppend(e.keys[..before], e.keys[before..], e.primary.entries);
        assert e.keys[..before] + e.keys[before..] == e.keys;
      }
    }
  }
}
