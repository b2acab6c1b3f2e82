/**
 * Sorting under a strict order. A sorted arrangement of distinct values is unique, so an unstable library
 * sort is a function of the set it is given.
 */
module Ordering {

  ghost predicate Sorted<T(!new)>(less: (T, T) -> bool, all: seq<T>) {
    forall i, j :: 0 <= i < j < |all| ==> less(all[i], all[j])
  }

  /** A sort by repeated insertion; any other correct sort gives the same result (`SortedIsUnique`). */
  function Sort<T(!new)>(less: (T, T) -> bool, all: seq<T>): seq<T> {
    if all == [] then [] else Insert(less, all[0], Sort(less, all[1..]))
  }

  function Insert<T(!new)>(less: (T, T) -> bool, x: T, all: seq<T>): seq<T> {
    if all == [] || less(x, all[0]) then [x] + all else [all[0]] + Insert(less, x, all[1..])
  }

  lemma {:induction false} InsertElements<T(!new)>(less: (T, T) -> bool, x: T, all: seq<T>)
    ensures multiset(Insert(less, x, all)) == multiset(all) + multiset{x}
  {
    if all == [] || less(x, all[0]) {
    } else {
      InsertElements(less, x, all[1..]);
      assert all == [all[0]] + all[1..];
    }
  }

  lemma {:induction false} SortElements<T(!new)>(less: (T, T) -> bool, all: seq<T>)
    ensures multiset(Sort(less, all)) == multiset(all)
  {
    if all != [] {
      SortElements(less, all[1..]);
      InsertElements(less, all[0], Sort(less, all[1..]));
      assert all == [all[0]] + all[1..];
    }
  }

  lemma {:induction false} SameMembers<T>(a: seq<T>, b: seq<T>)
    requires multiset(a) == multiset(b)
    ensures |a| == |b| && forall x :: x in a <==> x in b
  {
    assert |a| == |multiset(a)| == |multiset(b)| == |b|;
    forall x
      ensures x in a <==> x in b
    {
      assert x in a <==> x in multiset(a);
      assert x in b <==> x in multiset(b);
    }
  }

  /** `less` is a strict total order on the members of `all`. */
  ghost predicate TotalOn<T(!new)>(less: (T, T) -> bool, all: set<T>) {
    && (forall x | x in all :: !less(x, x))
    && (forall x, y | x in all && y in all :: x != y ==> less(x, y) || less(y, x))
    && (forall x, y, z | x in all && y in all && z in all :: less(x, y) && less(y, z) ==> less(x, z))
  }

  predicate Distinct<T(==)>(all: seq<T>) {
    forall i, j :: 0 <= i < j < |all| ==> all[i] != all[j]
  }

  lemma {:induction false} InsertSorted<T(!new)>(less: (T, T) -> bool, x: T, all: seq<T>, universe: set<T>)
    requires TotalOn(less, universe) && x in universe && (forall y | y in all :: y in universe)
    requires Sorted(less, all) && x !in all
    ensures Sorted(less, Insert(less, x, all))
  {
    if all == [] {
    } else if less(x, all[0]) {
      forall i | 0 <= i < |all|
        ensures less(x, all[i])
      {
        assert all[i] in universe && all[0] in universe;
      }
    } else {
      var rest := Insert(less, x, all[1..]);
      InsertSorted(less, x, all[1..], universe);
      InsertElements(less, x, all[1..]);
      forall i | 0 <= i < |rest|
        ensures less(all[0], rest[i])
      {
        assert rest[i] in multiset(rest);
        if rest[i] != x {
          assert rest[i] in all[1..];
        } else {
          assert all[0] in universe;
        }
      }
    }
  }

  lemma {:induction false} SortSorted<T(!new)>(less: (T, T) -> bool, all: seq<T>, universe: set<T>)
    requires TotalOn(less, universe) && Distinct(all) && (forall y | y in all :: y in universe)
    ensures Sorted(less, Sort(less, all))
  {
    if all != [] {
      SortSorted(less, all[1..], universe);
      SortElements(less, all[1..]);
      SameMembers(Sort(less, all[1..]), all[1..]);
      InsertSorted(less, all[0], Sort(less, all[1..]), universe);
    }
  }

  lemma {:induction false} HeadIsLeast<T(!new)>(less: (T, T) -> bool, all: seq<T>, x: T)
    requires Sorted(less, all) && x in all
    ensures x == all[0] || less(all[0], x)
  {
    var i :| 0 <= i < |all| && all[i] == x;
  }

  /** Two sorted sequences with the same members are the same sequence. */
  lemma {:induction false} SortedIsUnique<T(!new)>(less: (T, T) -> bool, a: seq<T>, b: seq<T>, universe: set<T>)
    requires TotalOn(less, universe) && (forall x | x in a :: x in universe)
    requires Sorted(less, a) && Sorted(less, b) && forall x :: x in a <==> x in b
    ensures a == b
  {
    assert |b| > 0 ==> b[0] in b && b[0] in a;
    if a != [] {
      assert a[0] in a && a[0] in b;
      HeadIsLeast(less, a, b[0]);
      HeadIsLeast(less, b, a[0]);
      forall x
        ensures x in a[1..] <==> x in b[1..]
      {
        if x in a[1..] {
          assert less(a[0], x) && x in a && x in b;
        }
        if x in b[1..] {
          assert less(b[0], x) && x in b && x in a;
        }
      }
      SortedIsUnique(less, a[1..], b[1..], universe);
    }
  }

  /** Sorting is a function of the set of values, whatever order they arrive in. */
  lemma {:induction false} SortIgnoresOrder<T(!new)>(less: (T, T) -> bool, a: seq<T>, b: seq<T>, universe: set<T>)
    requires TotalOn(less, universe) && Distinct(a) && Distinct(b) && (forall x | x in a :: x in universe)
    requires forall x :: x in a <==> x in b
    ensures Sort(less, a) == Sort(less, b) && Sorted(less, Sort(less, a))
  {
    SortSorted(less, a, universe);
    SortSorted(less, b, universe);
    SortElements(less, a);
    SortElements(less, b);
    SameMembers(Sort(less, a), a);
    SameMembers(Sort(less, b), b);
    SortedIsUnique(less, Sort(less, a), Sort(less, b), universe);
  }

  // The order of strings: Go compares bytes, which for UTF-8 is the order of code points.

  predicate Before(a: string, b: string) {
    if b == [] then false
    else if a == [] then true
    else if a[0] != b[0] then a[0] < b[0]
    else Before(a[1..], b[1..])
  }

  /** The strings agree up to a place where the first ends or has the smaller character. */
  predicate DiffersAt(a: string, b: string, k: nat) {
    k <= |a| && k < |b| && a[..k] == b[..k] && (k == |a| || a[k] < b[k])
  }

  lemma {:induction false} SameStart(a: string, b: string)
    ensures forall k: nat :: DiffersAt(a, b, k) ==> k == 0 || a[0] == b[0]
  {
    forall k: nat | DiffersAt(a, b, k)
      ensures k == 0 || a[0] == b[0]
    {
      if k > 0 { assert a[0] == a[..k][0] && b[0] == b[..k][0]; }
    }
  }

  lemma {:induction false} BeforeIff(a: string, b: string)
    ensures Before(a, b) <==> exists k: nat :: DiffersAt(a, b, k)
  {
    if b == [] {
    } else if a == [] || a[0] != b[0] {
      assert Before(a, b) ==> DiffersAt(a, b, 0);
      SameStart(a, b);
    } else {
      BeforeIff(a[1..], b[1..]);
      if k: nat :| DiffersAt(a[1..], b[1..], k) {
        assert a[..k + 1] == [a[0]] + a[1..][..k] && b[..k + 1] == [b[0]] + b[1..][..k];
        assert DiffersAt(a, b, k + 1);
      }
      if k: nat :| DiffersAt(a, b, k) {
        assert k > 0;
        assert a[1..][..k - 1] == a[..k][1..] && b[1..][..k - 1] == b[..k][1..];
        assert DiffersAt(a[1..], b[1..], k - 1);
      }
    }
  }

  lemma {:induction false} BeforeIrreflexive(a: string)
    ensures !Before(a, a)
  {
    if a != [] { BeforeIrreflexive(a[1..]); }
  }

  lemma {:induction false} BeforeTotal(a: string, b: string)
    requires a != b
    ensures Before(a, b) || Before(b, a)
  {
    if a != [] && b != [] && a[0] == b[0] {
      assert a == [a[0]] + a[1..] && b == [b[0]] + b[1..];
      BeforeTotal(a[1..], b[1..]);
    }
  }

  lemma {:induction false} BeforeTransitive(a: string, b: string, c: string)
    requires Before(a, b) && Before(b, c)
    ensures Before(a, c)
  {
    if a != [] && a[0] == b[0] == c[0] {
      BeforeTransitive(a[1..], b[1..], c[1..]);
    }
  }
}
