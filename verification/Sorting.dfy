/** What a sort by a comparison promises, and when that determines the result. */
module Sorting {
  import opened Seqs

  ghost predicate StrictWeakOrder<T(!new)>(less: (T, T) -> bool) {
    && (forall x :: !less(x, x))
    && (forall x, y, z :: less(x, y) && less(y, z) ==> less(x, z))
    && (forall x, y, z :: less(x, y) ==> less(x, z) || less(z, y))
  }

  predicate Sorted<T>(s: seq<T>, less: (T, T) -> bool) {
    forall i, j :: 0 <= i < j < |s| ==> !less(s[j], s[i])
  }

  predicate StrictlySorted<T>(s: seq<T>, less: (T, T) -> bool) {
    forall i, j :: 0 <= i < j < |s| ==> less(s[i], s[j])
  }

  /** The promise of an unstable sort: the same elements, in order. */
  predicate IsSorting<T(==)>(s: seq<T>, t: seq<T>, less: (T, T) -> bool) {
    multiset(t) == multiset(s) && Sorted(t, less)
  }

  lemma DropLast<T>(s: seq<T>)
    requires s != []
    ensures s == s[..|s| - 1] + [s[|s| - 1]]
    ensures multiset(s[..|s| - 1]) == multiset(s) - multiset{s[|s| - 1]}
  {
    assert s == s[..|s| - 1] + [s[|s| - 1]];
  }

  lemma SameLength<T>(s: seq<T>, t: seq<T>)
    requires multiset(s) == multiset(t)
    ensures |s| == |t|
  {
    assert |multiset(s)| == |multiset(t)|;
  }

  function Insert<T>(x: T, s: seq<T>, less: (T, T) -> bool): seq<T> {
    if s == [] then [x]
    else if less(x, s[|s| - 1]) then Insert(x, s[..|s| - 1], less) + [s[|s| - 1]]
    else s + [x]
  }

  function InsertionSort<T>(s: seq<T>, less: (T, T) -> bool): seq<T> {
    if s == [] then [] else Insert(s[|s| - 1], InsertionSort(s[..|s| - 1], less), less)
  }

  lemma {:induction false} InsertHas<T>(x: T, s: seq<T>, less: (T, T) -> bool)
    ensures multiset(Insert(x, s, less)) == multiset(s) + multiset{x}
  {
    if s != [] && less(x, s[|s| - 1]) {
      var n := |s| - 1;
      InsertHas(x, s[..n], less);
      DropLast(s);
    }
  }

  lemma {:induction false} InsertSorts<T(!new)>(x: T, s: seq<T>, less: (T, T) -> bool)
    requires StrictWeakOrder(less) && Sorted(s, less)
    ensures Sorted(Insert(x, s, less), less)
  {
    if s != [] {
      var n := |s| - 1;
      var last := s[n];
      if less(x, last) {
        var rest := Insert(x, s[..n], less);
        InsertSorts(x, s[..n], less);
        InsertHas(x, s[..n], less);
        forall i | 0 <= i < |rest|
          ensures !less(last, rest[i])
        {
          assert rest[i] in multiset(rest);
          assert rest[i] == x || rest[i] in s[..n];
        }
      } else {
        forall i | 0 <= i < |s|
          ensures !less(x, s[i])
        {
          assert i < n ==> !less(last, s[i]);
        }
      }
    }
  }

  lemma {:induction false} InsertionSortSorts<T(!new)>(s: seq<T>, less: (T, T) -> bool)
    requires StrictWeakOrder(less)
    ensures IsSorting(s, InsertionSort(s, less), less)
  {
    if s != [] {
      var n := |s| - 1;
      InsertionSortSorts(s[..n], less);
      InsertSorts(s[n], InsertionSort(s[..n], less), less);
      InsertHas(s[n], InsertionSort(s[..n], less), less);
      DropLast(s);
    }
  }

  /** Sorting a slice; callers know no more than the library promises. */
  method SortSlice<T(!new, ==)>(s: seq<T>, less: (T, T) -> bool) returns (t: seq<T>)
    requires StrictWeakOrder(less)
    ensures IsSorting(s, t, less)
  {
    InsertionSortSorts(s, less);
    t := InsertionSort(s, less);
  }

  /** No two elements tie. */
  predicate NoTies<T>(s: seq<T>, less: (T, T) -> bool) {
    forall i, j :: 0 <= i < j < |s| ==> less(s[i], s[j]) || less(s[j], s[i])
  }

  lemma {:induction false} InsertStrict<T(!new)>(x: T, s: seq<T>, less: (T, T) -> bool)
    requires StrictWeakOrder(less) && StrictlySorted(s, less)
    requires forall i :: 0 <= i < |s| ==> less(x, s[i]) || less(s[i], x)
    ensures StrictlySorted(Insert(x, s, less), less)
  {
    if s != [] {
      var n := |s| - 1;
      var last := s[n];
      if less(x, last) {
        var rest := Insert(x, s[..n], less);
        InsertStrict(x, s[..n], less);
        InsertHas(x, s[..n], less);
        forall i | 0 <= i < |rest|
          ensures less(rest[i], last)
        {
          assert rest[i] in multiset(rest);
          assert rest[i] == x || rest[i] in s[..n];
        }
      } else {
        assert less(last, x);
      }
    }
  }

  lemma {:induction false} InsertionSortStrict<T(!new)>(s: seq<T>, less: (T, T) -> bool)
    requires StrictWeakOrder(less) && NoTies(s, less)
    ensures StrictlySorted(InsertionSort(s, less), less)
  {
    if s != [] {
      var n := |s| - 1;
      var sorted := InsertionSort(s[..n], less);
      InsertionSortStrict(s[..n], less);
      InsertionSortSorts(s[..n], less);
      forall i | 0 <= i < |sorted|
        ensures less(s[n], sorted[i]) || less(sorted[i], s[n])
      {
        assert sorted[i] in multiset(s[..n]);
      }
      InsertStrict(s[n], sorted, less);
    }
  }

  predicate Tied<T>(x: T, y: T, less: (T, T) -> bool) {
    !less(x, y) && !less(y, x)
  }

  /** Only equal elements tie. */
  predicate TiesAreEqual<T(==)>(s: seq<T>, less: (T, T) -> bool) {
    forall i, j :: 0 <= i < |s| && 0 <= j < |s| && Tied(s[i], s[j], less) ==> s[i] == s[j]
  }

  lemma {:induction false} SortingIsUnique<T(!new)>(s: seq<T>, t: seq<T>, less: (T, T) -> bool)
    requires TiesAreEqual(s, less) && Sorted(s, less) && Sorted(t, less)
    requires StrictWeakOrder(less) && multiset(s) == multiset(t)
    ensures s == t
  {
    SameLength(s, t);
    if s != [] {
      var n := |s| - 1;
      SameLast(s, t, less);
      DropSame(s, t);
      PrefixesSorted(s, t, less);
      SortingIsUnique(s[..n], t[..n], less);
    }
  }

  lemma DropSame<T>(s: seq<T>, t: seq<T>)
    requires |s| == |t| > 0 && s[|s| - 1] == t[|t| - 1] && multiset(s) == multiset(t)
    ensures multiset(s[..|s| - 1]) == multiset(t[..|t| - 1])
    ensures s[..|s| - 1] == t[..|t| - 1] ==> s == t
  {
    DropLast(s);
    DropLast(t);
  }

  lemma PrefixesSorted<T>(s: seq<T>, t: seq<T>, less: (T, T) -> bool)
    requires |s| == |t| > 0 && TiesAreEqual(s, less) && Sorted(s, less) && Sorted(t, less)
    ensures TiesAreEqual(s[..|s| - 1], less) && Sorted(s[..|s| - 1], less) && Sorted(t[..|t| - 1], less)
  {
  }

  lemma SameLast<T(!new)>(s: seq<T>, t: seq<T>, less: (T, T) -> bool)
    requires TiesAreEqual(s, less) && Sorted(s, less) && Sorted(t, less)
    requires StrictWeakOrder(less) && multiset(s) == multiset(t) && |s| == |t| > 0
    ensures s[|s| - 1] == t[|s| - 1]
  {
    var n := |s| - 1;
    assert s[n] in multiset(t) && t[n] in multiset(s);
    var i :| 0 <= i < |t| && t[i] == s[n];
    var j :| 0 <= j < |s| && s[j] == t[n];
    assert !less(t[n], t[i]);
    assert !less(s[n], s[j]);
    assert Tied(s[n], s[j], less);
  }

  lemma TiesCarryOver<T>(s: seq<T>, t: seq<T>, less: (T, T) -> bool)
    requires TiesAreEqual(s, less) && multiset(s) == multiset(t)
    ensures TiesAreEqual(t, less)
  {
    forall i, j | 0 <= i < |t| && 0 <= j < |t| && Tied(t[i], t[j], less)
      ensures t[i] == t[j]
    {
      assert t[i] in multiset(s) && t[j] in multiset(s);
      var k :| 0 <= k < |s| && s[k] == t[i];
      var l :| 0 <= l < |s| && s[l] == t[j];
    }
  }

  ghost predicate OneSorting<T(!new)>(s: seq<T>, less: (T, T) -> bool) {
    forall t, u :: IsSorting(s, t, less) && IsSorting(s, u, less) ==> t == u
  }

  /** A list can be sorted in only one way exactly when only equal elements tie. */
  lemma OneSortingIff<T(!new)>(s: seq<T>, less: (T, T) -> bool)
    requires StrictWeakOrder(less)
    ensures OneSorting(s, less) <==> TiesAreEqual(s, less)
  {
    var sorted := InsertionSort(s, less);
    InsertionSortSorts(s, less);
    if TiesAreEqual(s, less) {
      forall t, u | IsSorting(s, t, less) && IsSorting(s, u, less)
        ensures t == u
      {
        TiesCarryOver(s, t, less);
        SortingIsUnique(t, u, less);
      }
    }
    if OneSorting(s, less) {
      forall i, j | 0 <= i < |sorted| && 0 <= j < |sorted| && Tied(sorted[i], sorted[j], less)
        ensures sorted[i] == sorted[j]
      {
        SwappedTieSorts(s, sorted, i, j, less);
        assert sorted[i := sorted[j]][j := sorted[i]] == sorted;
      }
      TiesCarryOver(sorted, s, less);
    }
  }

  /** Exchanging two elements that tie leaves a list sorted. */
  lemma SwappedTieSorts<T(!new)>(s: seq<T>, t: seq<T>, i: nat, j: nat, less: (T, T) -> bool)
    requires StrictWeakOrder(less) && IsSorting(s, t, less)
    requires i < |t| && j < |t| && Tied(t[i], t[j], less)
    ensures IsSorting(s, t[i := t[j]][j := t[i]], less)
  {
    var u := t[i := t[j]][j := t[i]];
    assert multiset(u) == multiset(t);
    forall k, l | 0 <= k < l < |u|
      ensures !less(u[l], u[k])
    {
      assert !less(t[l], t[k]);
      assert Tied(u[k], t[k], less) && Tied(u[l], t[l], less);
    }
  }

  /** Without ties every sort gives the same strictly sorted list. */
  lemma SortingWithoutTies<T(!new)>(s: seq<T>, t: seq<T>, less: (T, T) -> bool)
    requires StrictWeakOrder(less) && NoTies(s, less) && IsSorting(s, t, less)
    ensures t == InsertionSort(s, less) && StrictlySorted(t, less)
  {
    InsertionSortStrict(s, less);
    InsertionSortSorts(s, less);
    OneSortingIff(s, less);
  }

  // ---------- strings in lexicographic order ----------

  predicate StringLess(a: string, b: string) {
    b != "" && (a == "" || a[0] < b[0] || (a[0] == b[0] && StringLess(a[1..], b[1..])))
  }

  lemma {:induction false} StringIrreflexive(a: string)
    ensures !StringLess(a, a)
  {
    if a != "" {
      StringIrreflexive(a[1..]);
    }
  }

  lemma {:induction false} StringTransitive(a: string, b: string, c: string)
    requires StringLess(a, b) && StringLess(b, c)
    ensures StringLess(a, c)
  {
    if a != "" && a[0] == b[0] == c[0] {
      StringTransitive(a[1..], b[1..], c[1..]);
    }
  }

  lemma {:induction false} StringTotal(a: string, b: string)
    requires a != b
    ensures StringLess(a, b) || StringLess(b, a)
  {
    if a != "" && b != "" && a[0] == b[0] {
      assert a == [a[0]] + a[1..] && b == [b[0]] + b[1..];
      StringTotal(a[1..], b[1..]);
    }
  }

  /** Of two different strings exactly one comes first, and any third falls on one side. */
  lemma StringBetween(a: string, b: string, c: string)
    requires StringLess(a, b)
    ensures StringLess(a, c) || StringLess(c, b)
    ensures !StringLess(b, a)
  {
    if a != c {
      StringTotal(a, c);
      if StringLess(c, a) {
        StringTransitive(c, a, b);
      }
    }
    if StringLess(b, a) {
      StringTransitive(a, b, a);
      StringIrreflexive(a);
    }
  }

  /** Lexicographic order, spelled out: after a common part the first string ends, or its next character
      is smaller. */
  lemma {:induction false} StringLessIff(a: string, b: string)
    ensures StringLess(a, b) <==>
            exists k :: 0 <= k <= |a| && k < |b| && a[..k] == b[..k] && (k == |a| || a[k] < b[k])
  {
    if a != "" && b != "" && a[0] == b[0] {
      StringLessIff(a[1..], b[1..]);
      if k :| 0 <= k < |a| && k < |b| - 1 && a[1..][..k] == b[1..][..k] && (k == |a| - 1 || a[1..][k] < b[1..][k]) {
        assert a[..k + 1] == [a[0]] + a[1..][..k] && b[..k + 1] == [b[0]] + b[1..][..k];
      }
      if k :| 0 <= k <= |a| && k < |b| && a[..k] == b[..k] && (k == |a| || a[k] < b[k]) {
        assert a[1..][..k - 1] == a[..k][1..] && b[1..][..k - 1] == b[..k][1..];
      }
    } else if b != "" {
      if StringLess(a, b) {
        assert a[..0] == b[..0];
      }
      if k :| 0 < k <= |a| && k < |b| && a[..k] == b[..k] {
        assert a[..k][0] == b[..k][0];
      }
    }
  }
}
