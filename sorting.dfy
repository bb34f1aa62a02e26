/**
 * Ordering and sorting: the comparisons that `List.Sort`, `Array.Sort` and the store's
 * ordered enumeration rely on, and a sort proved against them.
 */
module Sorting {
  import opened CollectionExtensions

  /** `lt` is a strict total order: irreflexive, transitive and total. */
  ghost predicate IsStrictTotalOrder<T(!new)>(lt: (T, T) -> bool) {
    && (forall a :: !lt(a, a))
    && (forall a, b, c :: lt(a, b) && lt(b, c) ==> lt(a, c))
    && (forall a, b :: a == b || lt(a, b) || lt(b, a))
  }

  /** Ascending order (equal neighbours allowed). */
  predicate Sorted<T>(s: seq<T>, lt: (T, T) -> bool) {
    forall i, j :: 0 <= i < j < |s| ==> !lt(s[j], s[i])
  }

  /** Strictly ascending order, hence no duplicates. */
  predicate StrictlySorted<T>(s: seq<T>, lt: (T, T) -> bool) {
    forall i, j :: 0 <= i < j < |s| ==> lt(s[i], s[j])
  }

  /** Prefixing an element no greater than any element of an ascending sequence keeps it ascending. */
  lemma ConsSorted<T(!new)>(h: T, t: seq<T>, lt: (T, T) -> bool)
    requires Sorted(t, lt)
    requires forall y :: y in t ==> !lt(y, h)
    ensures Sorted([h] + t, lt)
  {
    assert forall j :: 0 <= j < |t| ==> t[j] in t;
  }

  /** In an ascending sequence no element is below the first one, nor below anything not above it. */
  lemma HeadIsLeast<T(!new)>(s: seq<T>, x: T, lt: (T, T) -> bool)
    requires IsStrictTotalOrder(lt)
    requires Sorted(s, lt) && s != [] && !lt(s[0], x)
    ensures forall y :: y in s ==> !lt(y, x)
  {
    forall y | y in s ensures !lt(y, x) {
      var k :| 0 <= k < |s| && s[k] == y;
      assert k == 0 || !lt(s[k], s[0]);
    }
  }

  /** Inserts `x` into an ascending sequence, before the first element not below it. */
  function Insert<T(!new)>(s: seq<T>, x: T, lt: (T, T) -> bool): (r: seq<T>)
    requires IsStrictTotalOrder(lt)
    requires Sorted(s, lt)
    ensures Sorted(r, lt)
    ensures multiset(r) == multiset(s) + multiset{x}
  {
    if s == [] then
      [x]
    else if !lt(s[0], x) then
      HeadIsLeast(s, x, lt);
      ConsSorted(x, s, lt);
      [x] + s
    else
      var rest := Insert(s[1..], x, lt);
      assert s == [s[0]] + s[1..];
      InsertedAboveHead(s, x, rest, lt);
      ConsSorted(s[0], rest, lt);
      [s[0]] + rest
  }

  /** Everything inserted behind the head of an ascending sequence stays not below the head. */
  lemma InsertedAboveHead<T(!new)>(s: seq<T>, x: T, rest: seq<T>, lt: (T, T) -> bool)
    requires IsStrictTotalOrder(lt)
    requires Sorted(s, lt) && s != [] && lt(s[0], x)
    requires multiset(rest) == multiset(s[1..]) + multiset{x}
    ensures forall y :: y in rest ==> !lt(y, s[0])
  {
    forall y | y in rest ensures !lt(y, s[0]) {
      assert y in multiset(rest);
      if y != x {
        assert y in multiset(s[1..]);
        var k :| 0 <= k < |s[1..]| && s[1..][k] == y;
        assert s[k + 1] == y;
      }
    }
  }

  /** A sort of `s` (`List.Sort`, `Array.Sort`), by insertion. */
  method Sort<T(!new)>(s: seq<T>, lt: (T, T) -> bool) returns (r: seq<T>)
    requires IsStrictTotalOrder(lt)
    ensures Sorted(r, lt)
    ensures multiset(r) == multiset(s)
  {
    r := [];
    for i := 0 to |s|
      invariant Sorted(r, lt)
      invariant multiset(r) == multiset(s[..i])
    {
      assert s[..i + 1] == s[..i] + [s[i]];
      r := Insert(r, s[i], lt);
    }
    assert s[..|s|] == s;
  }

  /** `Array.Sort` on an array of keys: insertion sort in place, ascending. */
  method SortArray(a: array<int>)
    modifies a
    ensures forall i, j :: 0 <= i < j < a.Length ==> a[i] <= a[j]
    ensures multiset(a[..]) == old(multiset(a[..]))
  {
    for i := 0 to a.Length
      invariant forall p, q :: 0 <= p < q < i ==> a[p] <= a[q]
      invariant multiset(a[..]) == old(multiset(a[..]))
    {
      var j := i;
      while j > 0 && a[j - 1] > a[j]
        invariant 0 <= j <= i
        invariant forall p, q :: 0 <= p < q <= i && q != j ==> a[p] <= a[q]
        invariant multiset(a[..]) == old(multiset(a[..]))
      {
        a[j - 1], a[j] := a[j], a[j - 1];
        j := j - 1;
      }
    }
  }

  /** A sequence is free of duplicates exactly when no element is counted twice. */
  lemma {:induction false} NoDuplicatesCount<T>(s: seq<T>)
    ensures NoDuplicates(s) <==> forall x :: multiset(s)[x] <= 1
  {
    if s != [] {
      NoDuplicatesCount(s[1..]);
      assert s == [s[0]] + s[1..];
      assert multiset(s) == multiset{s[0]} + multiset(s[1..]);
      if NoDuplicates(s) {
        assert NoDuplicates(s[1..]);
        assert s[0] !in s[1..];
      }
      if forall x :: multiset(s)[x] <= 1 {
        assert s[0] !in multiset(s[1..]);
        assert forall x :: multiset(s[1..])[x] <= multiset(s)[x];
        forall i, j | 0 <= i < j < |s| ensures s[i] != s[j] {
          if i == 0 {
            assert s[j] in s[1..];
          } else {
            assert s[1..][i - 1] == s[i] && s[1..][j - 1] == s[j];
          }
        }
      }
    }
  }

  /** Sorting a duplicate-free sequence gives a strictly ascending one. */
  lemma SortedDistinctIsStrict<T(!new)>(s: seq<T>, r: seq<T>, lt: (T, T) -> bool)
    requires IsStrictTotalOrder(lt)
    requires NoDuplicates(s) && Sorted(r, lt) && multiset(r) == multiset(s)
    ensures StrictlySorted(r, lt)
    ensures forall x :: x in r <==> x in s
  {
    NoDuplicatesCount(s);
    NoDuplicatesCount(r);
    assert forall x :: x in r <==> x in multiset(r);
    assert forall x :: x in s <==> x in multiset(s);
  }

  /** `m` is the least element of `s`. */
  ghost predicate IsMin<T>(m: T, s: set<T>, lt: (T, T) -> bool) {
    m in s && forall y :: y in s && y != m ==> lt(m, y)
  }

  /** A non-empty set has a least element. */
  lemma {:induction false} MinExists<T(!new)>(s: set<T>, lt: (T, T) -> bool)
    requires IsStrictTotalOrder(lt)
    requires s != {}
    ensures exists m :: IsMin(m, s, lt)
    decreases s
  {
    var x :| x in s;
    if s == {x} {
      assert IsMin(x, s, lt);
    } else {
      MinExists(s - {x}, lt);
      var m :| IsMin(m, s - {x}, lt);
      if lt(x, m) {
        forall y | y in s && y != x ensures lt(x, y) {
          if y != m {
            assert lt(m, y);
          }
        }
        assert IsMin(x, s, lt);
      } else {
        assert lt(m, x);
        assert IsMin(m, s, lt);
      }
    }
  }

  /** The elements of a finite set in strictly ascending order. */
  ghost function SortedElements<T(!new)>(s: set<T>, lt: (T, T) -> bool): (r: seq<T>)
    requires IsStrictTotalOrder(lt)
    ensures StrictlySorted(r, lt)
    ensures forall x :: x in r <==> x in s
    decreases s
  {
    if s == {} then []
    else
      MinExists(s, lt);
      var m :| IsMin(m, s, lt);
      var rest := SortedElements(s - {m}, lt);
      assert forall y :: y in rest ==> lt(m, y);
      assert forall j :: 0 <= j < |rest| ==> rest[j] in rest;
      [m] + rest
  }

  /** A strictly ascending sequence holds each element once. */
  lemma StrictlySortedDistinct<T(!new)>(s: seq<T>, lt: (T, T) -> bool)
    requires IsStrictTotalOrder(lt) && StrictlySorted(s, lt)
    ensures NoDuplicates(s)
  {
    forall i, j | 0 <= i < j < |s| ensures s[i] != s[j] {
      assert lt(s[i], s[j]);
    }
  }

  /**
   * Sorting the distinct items of a collection yields the one strictly ascending enumeration of
   * the set they make up.
   */
  lemma SortedIsSortedElements<T(!new)>(items: seq<T>, r: seq<T>, s: set<T>, lt: (T, T) -> bool)
    requires IsStrictTotalOrder(lt)
    requires NoDuplicates(items) && Sorted(r, lt) && multiset(r) == multiset(items)
    requires forall x :: x in items <==> x in s
    ensures r == SortedElements(s, lt)
  {
    SortedDistinctIsStrict(items, r, lt);
    StrictlySortedUnique(r, SortedElements(s, lt), lt);
  }

  /**
   * Two strictly ascending sequences with the same elements are equal: strict sortedness
   * fixes the order of a set completely.
   */
  lemma {:induction false} StrictlySortedUnique<T(!new)>(a: seq<T>, b: seq<T>, lt: (T, T) -> bool)
    requires IsStrictTotalOrder(lt)
    requires StrictlySorted(a, lt) && StrictlySorted(b, lt)
    requires forall x :: x in a <==> x in b
    ensures a == b
    decreases |a|
  {
    assert a != [] ==> a[0] in b;
    assert b != [] ==> b[0] in a;
    if a != [] {
      var i :| 0 <= i < |b| && b[i] == a[0];
      var j :| 0 <= j < |a| && a[j] == b[0];
      assert a[0] == b[0];
      forall x ensures x in a[1..] <==> x in b[1..] {
        if x in a[1..] {
          var k :| 0 <= k < |a[1..]| && a[1..][k] == x;
          assert lt(a[0], x);
          assert x in b;
        }
        if x in b[1..] {
          var k :| 0 <= k < |b[1..]| && b[1..][k] == x;
          assert lt(b[0], x);
          assert x in a;
        }
      }
      StrictlySortedUnique(a[1..], b[1..], lt);
      assert a == [a[0]] + a[1..] && b == [b[0]] + b[1..];
    }
  }

  /** Ordinal (code point by code point) order on strings; a proper prefix comes first. */
  function StrLess(a: string, b: string): bool
    decreases |a|
  {
    if a == [] then b != []
    else if b == [] then false
    else if a[0] != b[0] then a[0] < b[0]
    else StrLess(a[1..], b[1..])
  }

  lemma {:induction false} StrLessIrreflexive(a: string)
    ensures !StrLess(a, a)
    decreases |a|
  {
    if a != [] {
      StrLessIrreflexive(a[1..]);
    }
  }

  lemma {:induction false} StrLessTransitive(a: string, b: string, c: string)
    requires StrLess(a, b) && StrLess(b, c)
    ensures StrLess(a, c)
    decreases |a|
  {
    if a != [] && b != [] && c != [] && a[0] == b[0] && b[0] == c[0] {
      StrLessTransitive(a[1..], b[1..], c[1..]);
    }
  }

  lemma {:induction false} StrLessTotal(a: string, b: string)
    ensures a == b || StrLess(a, b) || StrLess(b, a)
    decreases |a|
  {
    if a != [] && b != [] && a[0] == b[0] {
      StrLessTotal(a[1..], b[1..]);
      if a[1..] == b[1..] {
        assert a == [a[0]] + a[1..] && b == [b[0]] + b[1..];
      }
    }
  }

  /** The ordinal string order is a strict total order. */
  lemma StrLessIsStrictTotalOrder()
    ensures IsStrictTotalOrder(StrLess)
  {
    forall a ensures !StrLess(a, a) {
      StrLessIrreflexive(a);
    }
    forall a, b, c | StrLess(a, b) && StrLess(b, c) ensures StrLess(a, c) {
      StrLessTransitive(a, b, c);
    }
    forall a, b ensures a == b || StrLess(a, b) || StrLess(b, a) {
      StrLessTotal(a, b);
    }
  }
}
