/** List functions and the facts about them that several components need. */
module Seqs {
  import opened Wrappers

  function Map<S, T>(f: S -> T, xs: seq<S>): (ys: seq<T>)
    ensures |ys| == |xs|
    ensures forall i :: 0 <= i < |xs| ==> ys[i] == f(xs[i])
  {
    if xs == [] then [] else [f(xs[0])] + Map(f, xs[1..])
  }

  function Filter<T>(p: T -> bool, xs: seq<T>): (ys: seq<T>)
    ensures forall y | y in ys :: y in xs && p(y)
    ensures forall x | x in xs && p(x) :: x in ys
    ensures |ys| <= |xs|
  {
    if xs == [] then []
    else if p(xs[0]) then [xs[0]] + Filter(p, xs[1..])
    else Filter(p, xs[1..])
  }

  function Flatten<T>(xss: seq<seq<T>>): seq<T> {
    if xss == [] then [] else xss[0] + Flatten(xss[1..])
  }

  /** Converts every element, failing as soon as one conversion fails. */
  function Traverse<S, T>(f: S -> Result<T>, xs: seq<S>): (r: Result<seq<T>>)
    ensures r.Ok? ==> |r.value| == |xs|
    ensures r.Ok? ==> forall i :: 0 <= i < |xs| ==> f(xs[i]) == Ok(r.value[i])
    ensures r.Err? ==> exists i :: 0 <= i < |xs| && f(xs[i]).Err?
  {
    if xs == [] then Ok([])
    else
      match f(xs[0])
      case Err => Err
      case Ok(y) =>
        match Traverse(f, xs[1..])
        case Err =>
          assert exists i :: 0 <= i < |xs| && f(xs[i]).Err? by {
            var i :| 0 <= i < |xs[1..]| && f(xs[1..][i]).Err?;
            assert f(xs[i + 1]).Err?;
          }
          Err
        case Ok(ys) => Ok([y] + ys)
  }

  /** Two maps of a list agree exactly when they agree on every element. */
  lemma MapsAgree<S, T>(f: S -> T, g: S -> T, same: S -> bool, xs: seq<S>)
    requires forall x | x in xs :: f(x) == g(x) <==> same(x)
    ensures Map(f, xs) == Map(g, xs) <==> forall x | x in xs :: same(x)
  {
    if Map(f, xs) == Map(g, xs) {
      forall x | x in xs
        ensures same(x)
      {
        var i :| 0 <= i < |xs| && xs[i] == x;
        assert Map(f, xs)[i] == Map(g, xs)[i];
      }
    }
  }

  lemma {:induction false} MapTwice<R, S, T>(f: R -> S, g: S -> T, h: R -> T, xs: seq<R>)
    requires forall x | x in xs :: g(f(x)) == h(x)
    ensures Map(g, Map(f, xs)) == Map(h, xs)
  {
    forall i | 0 <= i < |xs|
      ensures Map(g, Map(f, xs))[i] == Map(h, xs)[i]
    {
      assert xs[i] in xs;
    }
  }

  lemma {:induction false} MapIsSame<T>(xs: seq<T>)
    ensures Map((x: T) => x, xs) == xs
  {
  }

  lemma MapAppend<S, T>(f: S -> T, xs: seq<S>, ys: seq<S>)
    ensures Map(f, xs + ys) == Map(f, xs) + Map(f, ys)
  {
  }

  /** Converting images back: Traverse inverts Map element by element, and fails exactly when
      some element cannot be converted. */
  lemma {:induction false} TraverseMap<R, S, T>(f: S -> Result<T>, g: R -> S, ok: R -> bool, h: R -> T, xs: seq<R>)
    requires forall x | x in xs :: f(g(x)) == if ok(x) then Ok(h(x)) else Err
    ensures Traverse(f, Map(g, xs)) == if (forall x | x in xs :: ok(x)) then Ok(Map(h, xs)) else Err
  {
    if xs != [] {
      TraverseMap(f, g, ok, h, xs[1..]);
      assert Map(g, xs) == [g(xs[0])] + Map(g, xs[1..]);
      assert forall x | x in xs :: x == xs[0] || x in xs[1..];
    }
  }

  lemma {:induction false} TraverseMapSame<S, T>(f: S -> Result<T>, g: T -> S, xs: seq<T>)
    requires forall x | x in xs :: f(g(x)) == Ok(x)
    ensures Traverse(f, Map(g, xs)) == Ok(xs)
  {
    if xs != [] {
      TraverseMapSame(f, g, xs[1..]);
      assert Map(g, xs) == [g(xs[0])] + Map(g, xs[1..]);
      assert xs == [xs[0]] + xs[1..];
    }
  }

  function Prefixed<T>(done: seq<T>, rest: Result<seq<T>>): Result<seq<T>> {
    if rest.Err? then Err else Ok(done + rest.value)
  }

  lemma PrefixedEnds<T>(done: seq<T>, r: Result<seq<T>>)
    ensures Prefixed([], r) == r
    ensures Prefixed(done, Ok([])) == Ok(done)
  {
    if r.Ok? {
      assert [] + r.value == r.value;
    }
    assert done + [] == done;
  }

  /** One more step of a loop that converts a sequence element by element. */
  lemma TraverseStep<S, T>(f: S -> Result<T>, done: seq<T>, xs: seq<S>, i: nat)
    requires i < |xs|
    ensures Prefixed(done, Traverse(f, xs[i..])) ==
            if f(xs[i]).Err? then Err else Prefixed(done + [f(xs[i]).value], Traverse(f, xs[i + 1..]))
  {
    assert xs[i..][0] == xs[i] && xs[i..][1..] == xs[i + 1..];
    if f(xs[i]).Ok? && Traverse(f, xs[i + 1..]).Ok? {
      var rest := Traverse(f, xs[i + 1..]).value;
      assert done + ([f(xs[i]).value] + rest) == (done + [f(xs[i]).value]) + rest;
    }
  }

  lemma PrefixSnoc<T>(xs: seq<T>, i: nat)
    requires i < |xs|
    ensures xs[..i + 1] == xs[..i] + [xs[i]]
  {
  }

  /** One more step of a loop that maps a sequence element by element. */
  lemma SnocMap<S, T>(f: S -> T, xs: seq<S>, i: nat)
    requires i < |xs|
    ensures Map(f, xs[..i + 1]) == Map(f, xs[..i]) + [f(xs[i])]
  {
  }

  lemma {:induction false} FilterAppend<T>(p: T -> bool, xs: seq<T>, ys: seq<T>)
    ensures Filter(p, xs + ys) == Filter(p, xs) + Filter(p, ys)
  {
    if xs == [] {
      assert xs + ys == ys;
    } else {
      assert (xs + ys)[1..] == xs[1..] + ys;
      FilterAppend(p, xs[1..], ys);
    }
  }

  lemma {:induction false} FilterSame<T>(p: T -> bool, q: T -> bool, xs: seq<T>)
    requires forall x | x in xs :: p(x) == q(x)
    ensures Filter(p, xs) == Filter(q, xs)
  {
    if xs != [] {
      FilterSame(p, q, xs[1..]);
    }
  }

  lemma {:induction false} FilterAll<T>(p: T -> bool, xs: seq<T>)
    requires forall x :: x in xs ==> p(x)
    ensures Filter(p, xs) == xs
  {
    if xs != [] {
      FilterAll(p, xs[1..]);
    }
  }

  lemma {:induction false} FilterNone<T>(p: T -> bool, xs: seq<T>)
    requires forall x :: x in xs ==> !p(x)
    ensures Filter(p, xs) == []
  {
    if xs != [] {
      FilterNone(p, xs[1..]);
    }
  }

  lemma {:induction false} FlattenAppend<T>(xss: seq<seq<T>>, yss: seq<seq<T>>)
    ensures Flatten(xss + yss) == Flatten(xss) + Flatten(yss)
  {
    if xss == [] {
      assert xss + yss == yss;
    } else {
      assert (xss + yss)[1..] == xss[1..] + yss;
      FlattenAppend(xss[1..], yss);
    }
  }

  /** Finds the first element of xs in a permutation of xs, and what is left without it. */
  lemma TakeOut<T>(xs: seq<T>, ys: seq<T>) returns (before: seq<T>, after: seq<T>)
    requires multiset(xs) == multiset(ys) && xs != []
    ensures ys == before + [xs[0]] + after
    ensures multiset(before + after) == multiset(xs[1..])
  {
    assert xs == [xs[0]] + xs[1..];
    assert xs[0] in multiset(ys);
    var k :| 0 <= k < |ys| && ys[k] == xs[0];
    before, after := ys[..k], ys[k + 1..];
    assert ys == before + [xs[0]] + after;
    calc {
      multiset(xs[1..]);
      multiset(xs) - multiset{xs[0]};
      multiset(ys) - multiset{xs[0]};
      (multiset(before) + multiset{xs[0]} + multiset(after)) - multiset{xs[0]};
      multiset(before + after);
    }
  }
}
