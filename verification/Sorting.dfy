/** Stable sorting. sort.SliceStable and sort.Strings belong to the Go library and are
    modelled by insertion sort, which is what SliceStable runs on up to twenty elements; on
    a weak order every stable sort gives the same sequence, as StableSortIsUnique shows. */
module Sorting {
  import opened Seqs

  /** Inserts x behind everything it does not have to precede. */
  function Insert<T>(less: (T, T) -> bool, sorted: seq<T>, x: T): (r: seq<T>)
    ensures |r| == |sorted| + 1
    ensures multiset(r) == multiset(sorted) + multiset{x}
  {
    if sorted == [] then [x]
    else
      var n := |sorted| - 1;
      assert sorted == sorted[..n] + [sorted[n]];
      if less(x, sorted[n]) then Insert(less, sorted[..n], x) + [sorted[n]] else sorted + [x]
  }

  function InsertionSort<T>(less: (T, T) -> bool, xs: seq<T>): (r: seq<T>)
    ensures |r| == |xs|
    ensures multiset(r) == multiset(xs)
  {
    if xs == [] then []
    else
      var n := |xs| - 1;
      assert xs == xs[..n] + [xs[n]];
      Insert(less, InsertionSort(less, xs[..n]), xs[n])
  }

  /** less orders the elements of xs up to equivalence. */
  ghost predicate WeakOrderOn<T>(less: (T, T) -> bool, xs: seq<T>) {
    && (forall a, b | a in xs && b in xs :: !(less(a, b) && less(b, a)))
    && (forall a, b, c | a in xs && b in xs && c in xs :: !less(b, a) && !less(c, b) ==> !less(c, a))
  }

  ghost predicate Sorted<T>(less: (T, T) -> bool, ys: seq<T>) {
    forall i, j :: 0 <= i < j < |ys| ==> !less(ys[j], ys[i])
  }

  predicate Equivalent<T>(less: (T, T) -> bool, a: T, b: T) {
    !less(a, b) && !less(b, a)
  }

  /** The elements equivalent to a, in order. */
  function ClassOf<T>(less: (T, T) -> bool, a: T, xs: seq<T>): seq<T> {
    Filter((x: T) => Equivalent(less, a, x), xs)
  }

  /** ys keeps the order of equivalent elements of xs. */
  ghost predicate Stable<T>(less: (T, T) -> bool, xs: seq<T>, ys: seq<T>) {
    forall a | a in xs :: ClassOf(less, a, ys) == ClassOf(less, a, xs)
  }

  ghost predicate IsStableSort<T>(less: (T, T) -> bool, xs: seq<T>, ys: seq<T>) {
    multiset(ys) == multiset(xs) && Sorted(less, ys) && Stable(less, xs, ys)
  }

  lemma InSeqs<T>(xs: seq<T>, ys: seq<T>, x: T)
    requires multiset(xs) == multiset(ys)
    ensures x in xs <==> x in ys
  {
    assert x in multiset(xs) <==> x in multiset(ys);
  }

  lemma SortedAppend<T>(less: (T, T) -> bool, ys: seq<T>, x: T)
    requires Sorted(less, ys) && forall y | y in ys :: !less(x, y)
    ensures Sorted(less, ys + [x])
  {
  }

  lemma LastIsGreatest<T>(less: (T, T) -> bool, ys: seq<T>, y: T)
    requires Sorted(less, ys) && y in ys
    ensures less(ys[|ys| - 1], y) ==> y == ys[|ys| - 1]
  {
  }

  lemma {:induction false} InsertIsSorted<T>(less: (T, T) -> bool, sorted: seq<T>, x: T, all: seq<T>)
    requires WeakOrderOn(less, all) && x in all && (forall y | y in sorted :: y in all)
    requires Sorted(less, sorted)
    ensures Sorted(less, Insert(less, sorted, x))
    decreases |sorted|
  {
    if sorted != [] {
      var n := |sorted| - 1;
      if less(x, sorted[n]) {
        InsertIsSorted(less, sorted[..n], x, all);
        var r := Insert(less, sorted[..n], x);
        forall y | y in r
          ensures !less(sorted[n], y)
        {
          assert y in multiset(r);
          assert y == x || y in sorted[..n];
          assert sorted[n] in sorted;
        }
        SortedAppend(less, r, sorted[n]);
      } else {
        forall y | y in sorted
          ensures !less(x, y)
        {
          LastIsGreatest(less, sorted, y);
        }
        SortedAppend(less, sorted, x);
      }
    }
  }

  lemma ClassAppend<T>(less: (T, T) -> bool, a: T, xs: seq<T>, ys: seq<T>)
    ensures ClassOf(less, a, xs + ys) == ClassOf(less, a, xs) + ClassOf(less, a, ys)
  {
    FilterAppend((x: T) => Equivalent(less, a, x), xs, ys);
  }

  lemma ClassOfOne<T>(less: (T, T) -> bool, a: T, x: T)
    ensures ClassOf(less, a, [x]) == if Equivalent(less, a, x) then [x] else []
  {
  }

  /** Elements in order are not both equivalent to a third. */
  lemma NotBoth<T>(less: (T, T) -> bool, a: T, x: T, y: T, all: seq<T>)
    requires WeakOrderOn(less, all) && a in all && x in all && y in all && less(x, y)
    ensures !(Equivalent(less, a, x) && Equivalent(less, a, y))
  {
  }

  lemma SwapInClass<T>(less: (T, T) -> bool, a: T, before: seq<T>, inserted: seq<T>, x: T, last: T)
    requires ClassOf(less, a, inserted) == ClassOf(less, a, before + [x])
    requires !(Equivalent(less, a, x) && Equivalent(less, a, last))
    ensures ClassOf(less, a, inserted + [last]) == ClassOf(less, a, before + [last] + [x])
  {
    hide ClassOf, Equivalent;
    ClassAppend(less, a, inserted, [last]);
    ClassAppend(less, a, before, [x]);
    ClassAppend(less, a, before, [last]);
    ClassAppend(less, a, before + [last], [x]);
    ClassOfOne(less, a, x);
    ClassOfOne(less, a, last);
  }

  lemma {:induction false} InsertIsStable<T>(less: (T, T) -> bool, sorted: seq<T>, x: T, a: T, all: seq<T>)
    requires WeakOrderOn(less, all) && x in all && a in all && (forall y | y in sorted :: y in all)
    ensures ClassOf(less, a, Insert(less, sorted, x)) == ClassOf(less, a, sorted + [x])
    decreases |sorted|
  {
    hide ClassOf, WeakOrderOn, Equivalent;
    if sorted == [] {
      assert sorted + [x] == [x];
    } else {
      var n := |sorted| - 1;
      assert sorted[n] in sorted;
      if less(x, sorted[n]) {
        InsertIsStable(less, sorted[..n], x, a, all);
        NotBoth(less, a, x, sorted[n], all);
        SwapInClass(less, a, sorted[..n], Insert(less, sorted[..n], x), x, sorted[n]);
        assert sorted == sorted[..n] + [sorted[n]];
      }
    }
  }

  lemma {:induction false} InsertionSortIsSorted<T>(less: (T, T) -> bool, xs: seq<T>, all: seq<T>)
    requires WeakOrderOn(less, all) && (forall y | y in xs :: y in all)
    ensures Sorted(less, InsertionSort(less, xs))
    decreases |xs|
  {
    if xs != [] {
      var n := |xs| - 1;
      InsertionSortIsSorted(less, xs[..n], all);
      SortedFrom(less, xs[..n], all);
      InsertIsSorted(less, InsertionSort(less, xs[..n]), xs[n], all);
    }
  }

  lemma SortedFrom<T>(less: (T, T) -> bool, xs: seq<T>, all: seq<T>)
    requires forall y | y in xs :: y in all
    ensures forall y | y in InsertionSort(less, xs) :: y in all
  {
    forall y | y in InsertionSort(less, xs)
      ensures y in all
    {
      InSeqs(InsertionSort(less, xs), xs, y);
    }
  }

  lemma {:induction false} InsertionSortIsStable<T>(less: (T, T) -> bool, xs: seq<T>, a: T, all: seq<T>)
    requires WeakOrderOn(less, all) && a in all && (forall y | y in xs :: y in all)
    ensures ClassOf(less, a, InsertionSort(less, xs)) == ClassOf(less, a, xs)
    decreases |xs|
  {
    if xs != [] {
      var n := |xs| - 1;
      var s := InsertionSort(less, xs[..n]);
      InsertionSortIsStable(less, xs[..n], a, all);
      SortedFrom(less, xs[..n], all);
      InsertIsStable(less, s, xs[n], a, all);
      ClassAppend(less, a, s, [xs[n]]);
      ClassAppend(less, a, xs[..n], [xs[n]]);
      assert xs == xs[..n] + [xs[n]];
    }
  }

  lemma InsertionSortIsStableSort<T>(less: (T, T) -> bool, xs: seq<T>)
    requires WeakOrderOn(less, xs)
    ensures IsStableSort(less, xs, InsertionSort(less, xs))
  {
    InsertionSortIsSorted(less, xs, xs);
    forall a | a in xs
      ensures ClassOf(less, a, InsertionSort(less, xs)) == ClassOf(less, a, xs)
    {
      InsertionSortIsStable(less, xs, a, xs);
    }
  }

  lemma HeadsAgree<T>(less: (T, T) -> bool, ys: seq<T>, zs: seq<T>, all: seq<T>)
    requires WeakOrderOn(less, all) && multiset(ys) == multiset(zs) && ys != [] && zs != []
    requires (forall y | y in ys :: y in all) && (forall z | z in zs :: z in all)
    requires Sorted(less, ys) && Sorted(less, zs)
    requires forall a | a in all :: ClassOf(less, a, ys) == ClassOf(less, a, zs)
    ensures ys[0] == zs[0]
  {
    var y, z := ys[0], zs[0];
    InSeqs(ys, zs, y);
    InSeqs(ys, zs, z);
    HeadIsLeast(less, ys, z, all);
    HeadIsLeast(less, zs, y, all);
    SplitHead(less, y, ys);
    SplitHead(less, y, zs);
    assert ClassOf(less, y, ys)[0] == y;
    assert ClassOf(less, y, zs)[0] == z;
  }

  lemma TailClassesAgree<T>(less: (T, T) -> bool, a: T, ys: seq<T>, zs: seq<T>)
    requires ys != [] && zs != [] && ys[0] == zs[0] && ClassOf(less, a, ys) == ClassOf(less, a, zs)
    ensures ClassOf(less, a, ys[1..]) == ClassOf(less, a, zs[1..])
  {
    SplitHead(less, a, ys);
    SplitHead(less, a, zs);
    CancelPrefix(if Equivalent(less, a, ys[0]) then [ys[0]] else [],
                 ClassOf(less, a, ys[1..]), ClassOf(less, a, zs[1..]));
  }

  lemma SortedTail<T>(less: (T, T) -> bool, ys: seq<T>)
    requires Sorted(less, ys) && ys != []
    ensures Sorted(less, ys[1..])
  {
  }

  lemma SameTails<T>(ys: seq<T>, zs: seq<T>)
    requires ys != [] && zs != [] && ys[0] == zs[0] && multiset(ys) == multiset(zs)
    ensures multiset(ys[1..]) == multiset(zs[1..])
  {
    assert ys == [ys[0]] + ys[1..] && zs == [zs[0]] + zs[1..];
    assert multiset(ys[1..]) == multiset(ys) - multiset{ys[0]};
  }

  lemma {:induction false} SortedClassesAreUnique<T>(less: (T, T) -> bool, ys: seq<T>, zs: seq<T>, all: seq<T>)
    requires WeakOrderOn(less, all) && multiset(ys) == multiset(zs)
    requires forall y | y in ys :: y in all
    requires Sorted(less, ys) && Sorted(less, zs)
    requires forall a | a in all :: ClassOf(less, a, ys) == ClassOf(less, a, zs)
    ensures ys == zs
    decreases |ys|
  {
    if ys == [] {
      assert |multiset(zs)| == 0;
    } else {
      forall x | x in zs
        ensures x in all
      {
        InSeqs(ys, zs, x);
      }
      HeadsAgree(less, ys, zs, all);
      SortedTail(less, ys);
      SortedTail(less, zs);
      SameTails(ys, zs);
      hide ClassOf, Sorted, WeakOrderOn;
      forall a | a in all
        ensures ClassOf(less, a, ys[1..]) == ClassOf(less, a, zs[1..])
      {
        TailClassesAgree(less, a, ys, zs);
      }
      SortedClassesAreUnique(less, ys[1..], zs[1..], all);
    }
  }

  lemma CancelPrefix<T>(p: seq<T>, xs: seq<T>, ys: seq<T>)
    requires p + xs == p + ys
    ensures xs == ys
  {
    assert (p + xs)[|p|..] == xs && (p + ys)[|p|..] == ys;
  }

  lemma SplitHead<T>(less: (T, T) -> bool, a: T, ys: seq<T>)
    requires ys != []
    ensures ClassOf(less, a, ys) == (if Equivalent(less, a, ys[0]) then [ys[0]] else []) + ClassOf(less, a, ys[1..])
  {
    assert ys == [ys[0]] + ys[1..];
    ClassAppend(less, a, [ys[0]], ys[1..]);
    ClassOfOne(less, a, ys[0]);
  }

  lemma HeadIsLeast<T>(less: (T, T) -> bool, ys: seq<T>, y: T, all: seq<T>)
    requires WeakOrderOn(less, all) && (forall x | x in ys :: x in all)
    requires Sorted(less, ys) && y in ys
    ensures !less(y, ys[0])
  {
    var i :| 0 <= i < |ys| && ys[i] == y;
    assert i > 0 ==> !less(ys[i], ys[0]);
    assert ys[0] in all;
  }

  /** There is only one stable sorted permutation. */
  lemma StableSortIsUnique<T>(less: (T, T) -> bool, xs: seq<T>, ys: seq<T>)
    requires WeakOrderOn(less, xs) && IsStableSort(less, xs, ys)
    ensures ys == InsertionSort(less, xs)
  {
    InsertionSortIsStableSort(less, xs);
    forall y | y in ys
      ensures y in xs
    {
      InSeqs(ys, xs, y);
    }
    SortedClassesAreUnique(less, ys, InsertionSort(less, xs), xs);
  }

  // ----- sorting in place -----

  function Exchange<T>(s: seq<T>, j: nat): (r: seq<T>)
    requires 0 < j < |s|
    ensures |r| == |s|
  {
    s[j - 1 := s[j]][j := s[j - 1]]
  }

  /** s with s[j] exchanged downwards until it is not less than its neighbour. */
  function Sink<T>(less: (T, T) -> bool, s: seq<T>, j: nat): (r: seq<T>)
    requires j < |s|
    ensures |r| == |s|
    decreases j
  {
    if j > 0 && less(s[j], s[j - 1]) then Sink(less, Exchange(s, j), j - 1) else s
  }

  lemma ExchangeParts<T>(s: seq<T>, j: nat)
    requires 0 < j < |s|
    ensures Exchange(s, j)[..j - 1] == s[..j][..j - 1]
    ensures Exchange(s, j)[j - 1] == s[j]
    ensures Exchange(s, j)[j..] == [s[j - 1]] + s[j + 1..]
  {
  }

  lemma Regroup<T>(xs: seq<T>, ys: seq<T>, zs: seq<T>)
    ensures xs + (ys + zs) == (xs + ys) + zs
  {
  }

  lemma {:induction false} SinkInserts<T>(less: (T, T) -> bool, s: seq<T>, j: nat)
    requires j < |s|
    ensures Sink(less, s, j) == Insert(less, s[..j], s[j]) + s[j + 1..]
    decreases j
  {
    if j > 0 && less(s[j], s[j - 1]) {
      ExchangeParts(s, j);
      SinkInserts(less, Exchange(s, j), j - 1);
      var before := Insert(less, s[..j][..j - 1], s[j]);
      Regroup(before, [s[j - 1]], s[j + 1..]);
      assert s[..j][j - 1] == s[j - 1];
    } else {
      assert j > 0 ==> s[..j][j - 1] == s[j - 1];
      assert Insert(less, s[..j], s[j]) == s[..j] + [s[j]];
      assert s == s[..j] + [s[j]] + s[j + 1..];
    }
  }

  /** The passes of the outer loop from i on. */
  function SortFrom<T>(less: (T, T) -> bool, s: seq<T>, i: nat): (r: seq<T>)
    requires i <= |s|
    decreases |s| - i
  {
    if i == |s| then s else SortFrom(less, Sink(less, s, i), i + 1)
  }

  lemma {:induction false} SortFromSorts<T>(less: (T, T) -> bool, done: seq<T>, rest: seq<T>)
    ensures SortFrom(less, InsertionSort(less, done) + rest, |done|) == InsertionSort(less, done + rest)
    decreases |rest|
  {
    hide Insert, Sink;
    var s := InsertionSort(less, done) + rest;
    if rest == [] {
      assert s == InsertionSort(less, done) && done + rest == done;
    } else {
      SinkInserts(less, s, |done|);
      assert s[..|done|] == InsertionSort(less, done) && s[|done|] == rest[0] && s[|done| + 1..] == rest[1..];
      assert (done + [rest[0]])[..|done|] == done;
      assert done + [rest[0]] + rest[1..] == done + rest;
      SortFromSorts(less, done + [rest[0]], rest[1..]);
    }
  }

  /** sort.SliceStable, as the exchanges of an insertion sort. */
  method SortInPlace<T>(less: (T, T) -> bool, a: array<T>)
    modifies a
    ensures a[..] == InsertionSort(less, old(a[..]))
  {
    ghost var xs := a[..];
    for i := 0 to a.Length
      invariant SortFrom(less, a[..], i) == SortFrom(less, xs, 0)
    {
      ghost var s := a[..];
      var j := i;
      while j > 0 && less(a[j], a[j - 1])
        invariant 0 <= j <= i
        invariant Sink(less, a[..], j) == Sink(less, s, i)
      {
        ghost var before := a[..];
        a[j], a[j - 1] := a[j - 1], a[j];
        assert a[..] == Exchange(before, j);
        j := j - 1;
      }
    }
    SortFromSorts(less, [], xs);
    assert InsertionSort(less, []) + xs == xs && [] + xs == xs;
  }
}
