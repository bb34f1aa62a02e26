/**
 * Posting-list primitives (CollectionExtensions.cs): `CopyAndAdd` and `CopyAndRemove` build a
 * fresh array from an old one and are the only operations that change a posting list;
 * `AddRange` adds a sequence of items to a hash set.
 */
module CollectionExtensions {
  import opened Wrappers

  /** No element occurs twice. */
  predicate NoDuplicates<T(==)>(s: seq<T>) {
    forall i, j :: 0 <= i < j < |s| ==> s[i] != s[j]
  }

  /** `Array.IndexOf`: the first position of `v` in `a`, or -1 when `v` does not occur. */
  function IndexOf<T(==)>(a: seq<T>, v: T): (i: int)
    ensures -1 <= i < |a|
    ensures i < 0 <==> v !in a
    ensures 0 <= i ==> a[i] == v && v !in a[..i]
  {
    if |a| == 0 then -1
    else if a[0] == v then 0
    else
      var j := IndexOf(a[1..], v);
      assert a[1..] == a[1..][..];
      if j < 0 then -1
      else
        assert a[..j + 1] == [a[0]] + a[1..][..j];
        j + 1
  }

  /** The contents of `CopyAndAdd(a, v)`: `a` followed by `v`. */
  function Appended<T>(a: seq<T>, v: T): (r: seq<T>)
    ensures |r| == |a| + 1 && r[..|a|] == a && r[|a|] == v
  {
    a + [v]
  }

  /**
   * The contents of `CopyAndRemove(a, v)`: `a` without the first occurrence of `v`, or
   * `KeyNotFound` when `v` does not occur in `a`.
   */
  function Removed<T(==)>(a: seq<T>, v: T): (r: Result<seq<T>>)
    ensures r.Err? <==> v !in a
    ensures r.Ok? ==> |r.value| == |a| - 1
  {
    var i := IndexOf(a, v);
    if i < 0 then Err(KeyNotFound) else Ok(a[..i] + a[i + 1..])
  }

  /** `CopyAndRemove` fails exactly when the value is missing, and otherwise shortens by one. */
  lemma RemovedShape<T>(a: seq<T>, v: T)
    ensures Removed(a, v).Err? <==> v !in a
    ensures Removed(a, v).Err? ==> Removed(a, v).error == KeyNotFound
    ensures Removed(a, v).Ok? ==>
              |Removed(a, v).value| == |a| - 1 &&
              multiset(Removed(a, v).value) == multiset(a) - multiset{v}
  {
    var i := IndexOf(a, v);
    if 0 <= i {
      assert a == a[..i] + [v] + a[i + 1..];
      assert multiset(a) == multiset(a[..i]) + multiset{v} + multiset(a[i + 1..]);
    }
  }

  /**
   * Only the first occurrence is taken out and the rest keeps its order: the result is the
   * prefix before that occurrence followed by the suffix after it.
   */
  lemma RemovedKeepsOrder<T>(a: seq<T>, v: T)
    requires v in a
    ensures exists i :: 0 <= i < |a| && a[i] == v && v !in a[..i] &&
                        Removed(a, v) == Ok(a[..i] + a[i + 1..])
  {
    var i := IndexOf(a, v);
    assert 0 <= i < |a| && a[i] == v && v !in a[..i];
  }

  /**
   * On a posting list without duplicates, removal takes out exactly `v` and nothing else, and
   * the result has no duplicates either.
   */
  lemma {:induction false} RemovedElements<T>(a: seq<T>, v: T)
    requires NoDuplicates(a) && v in a
    ensures Removed(a, v).Ok?
    ensures NoDuplicates(Removed(a, v).value)
    ensures forall x :: x in Removed(a, v).value <==> x in a && x != v
  {
    var i := IndexOf(a, v);
    var r := a[..i] + a[i + 1..];
    assert forall k :: 0 <= k < |r| ==> r[k] == (if k < i then a[k] else a[k + 1]);
    forall x
      ensures x in r <==> x in a && x != v
    {
      if x in r {
        var k :| 0 <= k < |r| && r[k] == x;
        assert x == (if k < i then a[k] else a[k + 1]);
      }
      if x in a && x != v {
        var k :| 0 <= k < |a| && a[k] == x;
        assert k != i;
        if k < i { assert r[k] == x; } else { assert r[k - 1] == x; }
      }
    }
  }

  /** Appending a value that is absent keeps a posting list free of duplicates. */
  lemma AppendedElements<T>(a: seq<T>, v: T)
    requires NoDuplicates(a) && v !in a
    ensures NoDuplicates(Appended(a, v))
    ensures forall x :: x in Appended(a, v) <==> x in a || x == v
  {
  }

  /** Round trip: removing a value just appended to a list that lacked it gives the list back. */
  lemma {:induction false} RemoveAfterAdd<T>(a: seq<T>, v: T)
    requires v !in a
    ensures Removed(Appended(a, v), v) == Ok(a)
  {
    var b := Appended(a, v);
    var i := IndexOf(b, v);
    assert b[|a|] == v;
    assert i == |a| && b[..i] == a && b[i + 1..] == [];
    assert b[..i] + b[i + 1..] == a;
    assert Removed(b, v) == Ok(b[..i] + b[i + 1..]);
  }

  /** `Array.Copy(src, srcIndex, dst, dstIndex, length)` between two distinct arrays. */
  method ArrayCopy<T>(src: array<T>, srcIndex: nat, dst: array<T>, dstIndex: nat, length: nat)
    requires srcIndex + length <= src.Length && dstIndex + length <= dst.Length
    requires src != dst
    modifies dst
    ensures dst[..] == old(dst[..dstIndex]) + src[srcIndex..srcIndex + length] + old(dst[dstIndex + length..])
  {
    var n := 0;
    while n < length
      invariant 0 <= n <= length
      invariant forall k :: 0 <= k < dst.Length ==>
                  dst[k] == (if dstIndex <= k < dstIndex + n then src[srcIndex + k - dstIndex] else old(dst[k]))
    {
      dst[dstIndex + n] := src[srcIndex + n];
      n := n + 1;
    }
    ghost var expected := old(dst[..dstIndex]) + src[srcIndex..srcIndex + length] + old(dst[dstIndex + length..]);
    assert |expected| == dst.Length;
    assert forall k :: 0 <= k < dst.Length ==> dst[k] == expected[k];
  }

  /**
   * `CopyAndAdd`: a null array is rejected; otherwise a fresh array one longer than `a`,
   * holding `a` and then `value`; `a` itself is not modified.
   */
  method CopyAndAdd<T>(a: array?<T>, value: T) returns (r: Result<array<T>>)
    ensures a == null ==> r == Err(ArgumentNull)
    ensures a != null ==> r.Ok? && fresh(r.value)
    ensures a != null ==> r.value.Length == a.Length + 1 && r.value[..a.Length] == a[..] &&
                          r.value[a.Length] == value
    ensures a != null ==> r.value[..] == Appended(a[..], value)
  {
    if a == null {
      return Err(ArgumentNull);
    }
    var newArray := new T[a.Length + 1](_ => value);
    ArrayCopy(a, 0, newArray, 0, a.Length);
    newArray[a.Length] := value;
    return Ok(newArray);
  }

  /**
   * `CopyAndRemove`: a null array is rejected, a value that does not occur raises
   * `KeyNotFound`, and otherwise the result is a fresh array without the first occurrence
   * of `value`; `a` itself is not modified.
   */
  method CopyAndRemove<T(==)>(a: array?<T>, value: T) returns (r: Result<array<T>>)
    ensures a == null ==> r == Err(ArgumentNull)
    ensures a != null && value !in a[..] ==> r == Err(KeyNotFound)
    ensures a != null && value in a[..] ==>
              r.Ok? && fresh(r.value) && r.value.Length == a.Length - 1 &&
              Removed(a[..], value) == Ok(r.value[..])
  {
    if a == null {
      return Err(ArgumentNull);
    }
    var index := IndexOf(a[..], value);
    if index < 0 {
      return Err(KeyNotFound);
    }
    var newArray := new T[a.Length - 1](_ => value);
    ArrayCopy(a, 0, newArray, 0, index);
    assert newArray[..index] == a[..index];
    ArrayCopy(a, index + 1, newArray, index, newArray.Length - index);
    assert a[index + 1..index + 1 + (newArray.Length - index)] == a[index + 1..];
    assert newArray[..] == a[..index] + a[index + 1..];
    return Ok(newArray);
  }

  /**
   * The contents of a hash set after adding `xs` to one holding `s`, in insertion order:
   * each item not yet present goes to the end.
   */
  function Extended<T(==)>(s: seq<T>, xs: seq<T>): seq<T>
    decreases |xs|
  {
    if xs == [] then s
    else
      var before := Extended(s, xs[..|xs| - 1]);
      if xs[|xs| - 1] in before then before else before + [xs[|xs| - 1]]
  }

  /**
   * `AddRange` removes nothing: the old contents are a prefix of the new, which hold exactly
   * the old elements and the added items, still without duplicates.
   */
  lemma {:induction false} ExtendedElements<T>(s: seq<T>, xs: seq<T>)
    requires NoDuplicates(s)
    ensures NoDuplicates(Extended(s, xs))
    ensures s <= Extended(s, xs)
    ensures forall x :: x in Extended(s, xs) <==> x in s || x in xs
    decreases |xs|
  {
    if xs != [] {
      var init := xs[..|xs| - 1];
      ExtendedElements(s, init);
      assert xs == init + [xs[|xs| - 1]];
    }
  }

  /** A duplicate-free sequence has as many elements as the set of its elements. */
  lemma {:induction false} DistinctCardinality<T>(s: seq<T>)
    requires NoDuplicates(s)
    ensures |set x | x in s| == |s|
  {
    if s != [] {
      assert NoDuplicates(s[1..]) by {
        assert forall i :: 0 <= i < |s| - 1 ==> s[1..][i] == s[i + 1];
      }
      DistinctCardinality(s[1..]);
      assert s[0] !in s[1..];
      assert (set x | x in s) == {s[0]} + (set x | x in s[1..]);
    }
  }

  /** A duplicate-free sequence whose elements all occur in another one is no longer. */
  lemma DistinctSubsetLength<T>(a: seq<T>, b: seq<T>)
    requires NoDuplicates(a) && NoDuplicates(b)
    requires forall x :: x in a ==> x in b
    ensures |a| <= |b|
  {
    DistinctCardinality(a);
    DistinctCardinality(b);
    SubsetCardinality(set x | x in a, set x | x in b);
  }

  /** A subset is no larger. */
  lemma {:induction false} SubsetCardinality<T>(small: set<T>, large: set<T>)
    requires small <= large
    ensures |small| <= |large|
    decreases small
  {
    if small != {} {
      var x :| x in small;
      SubsetCardinality(small - {x}, large - {x});
    }
  }

  /** A `HashSet<T>`; its elements are kept in insertion order, the order enumeration yields. */
  class HashSet<T(==)> {
    var items: seq<T>

    ghost predicate Valid()
      reads this
    {
      NoDuplicates(items)
    }

    constructor ()
      ensures Valid() && items == []
    {
      items := [];
    }

    /** `HashSet.Count`. */
    function Count(): nat
      reads this
    {
      |items|
    }

    /** `HashSet.Add`: adds `x` unless present and says whether it did. */
    method Add(x: T) returns (added: bool)
      requires Valid()
      modifies this
      ensures Valid()
      ensures added <==> x !in old(items)
      ensures items == if added then old(items) + [x] else old(items)
    {
      added := x !in items;
      if added {
        items := items + [x];
      }
    }

    /** `AddRange`: adds every item of `xs`, in order. */
    method AddRange(xs: seq<T>)
      requires Valid()
      modifies this
      ensures Valid()
      ensures items == Extended(old(items), xs)
    {
      ghost var start := items;
      for i := 0 to |xs|
        invariant Valid()
        invariant items == Extended(start, xs[..i])
      {
        assert xs[..i + 1][..i] == xs[..i];
        var _ := Add(xs[i]);
      }
      assert xs[..|xs|] == xs;
      ExtendedElements(start, xs);
    }
  }
}
