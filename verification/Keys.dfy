/** Lists of distinct strings and their order. */
module Keys {
  import opened Values
  import opened Sorting

  predicate Distinct<T(==)>(xs: seq<T>) {
    forall i, j :: 0 <= i < j < |xs| ==> xs[i] != xs[j]
  }

  ghost predicate Ascending(ks: seq<string>) {
    forall i, j :: 0 <= i < j < |ks| ==> StringLess(ks[i], ks[j])
  }

  lemma DistinctIsPermutable<T>(xs: seq<T>, ys: seq<T>)
    requires multiset(xs) == multiset(ys) && Distinct(xs)
    ensures Distinct(ys)
  {
    forall i, j | 0 <= i < j < |ys|
      ensures ys[i] != ys[j]
    {
      if ys[i] == ys[j] {
        CountTwice(ys, i, j);
        CountOnce(xs, ys[i]);
      }
    }
  }

  lemma CountTwice<T>(xs: seq<T>, i: nat, j: nat)
    requires i < j < |xs| && xs[i] == xs[j]
    ensures multiset(xs)[xs[i]] >= 2
  {
    var x := xs[i];
    assert xs == xs[..i] + [x] + xs[i + 1..j] + [x] + xs[j + 1..];
  }

  lemma {:induction false} CountOnce<T>(xs: seq<T>, x: T)
    requires Distinct(xs)
    ensures multiset(xs)[x] <= 1
  {
    if xs != [] {
      assert xs == [xs[0]] + xs[1..];
      CountOnce(xs[1..], x);
      if x == xs[0] {
        assert x !in xs[1..];
      }
    }
  }

  lemma StringsAreOrdered(keys: seq<string>)
    ensures WeakOrderOn(StringLess, keys)
  {
    forall a, b | a in keys && b in keys
      ensures !(StringLess(a, b) && StringLess(b, a))
    {
      StringLessIsStrict(a, b);
    }
    forall a, b, c | a in keys && b in keys && c in keys && !StringLess(b, a) && !StringLess(c, b)
      ensures !StringLess(c, a)
    {
      StringLessIsStrict(a, b);
      StringLessIsStrict(b, c);
      StringLessIsStrict(a, c);
      if StringLess(c, a) && a != b && b != c {
        StringLessTransitive(a, b, c);
      }
    }
  }

  /** sort.Strings on distinct strings: the same strings, ascending. */
  lemma SortedDistinctAscends(xs: seq<string>)
    requires Distinct(xs)
    ensures var ys := InsertionSort(StringLess, xs);
            Ascending(ys) && Distinct(ys) && forall k :: k in xs <==> k in ys
  {
    var ys := InsertionSort(StringLess, xs);
    forall k
      ensures k in xs <==> k in ys
    {
      InSeqs(xs, ys, k);
    }
    StringsAreOrdered(xs);
    InsertionSortIsStableSort(StringLess, xs);
    DistinctIsPermutable(xs, ys);
    forall i, j | 0 <= i < j < |ys|
      ensures StringLess(ys[i], ys[j])
    {
      StringLessIsStrict(ys[i], ys[j]);
    }
  }
}
