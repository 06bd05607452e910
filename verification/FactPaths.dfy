/** Structured facts and their leaves: the fact_contents expansion of command.go. */
module FactPaths {
  import opened Wrappers
  import opened Seqs
  import opened Text
  import opened Values
  import opened Sorting
  import opened Keys

  // ----- the keys of a map, in order -----

  ghost predicate IsLeast(k: string, s: set<string>) {
    k in s && forall x | x in s :: !StringLess(x, k)
  }

  lemma LeastExists(s: set<string>)
    requires s != {}
    ensures exists k :: IsLeast(k, s)
  {
    var k :| k in s;
    var rest := s - {k};
    if rest == {} {
      StringLessIsStrict(k, k);
      assert s == {k};
      assert IsLeast(k, s);
    } else {
      LeastExists(rest);
      var m :| IsLeast(m, rest);
      StringLessIsStrict(k, m);
      if StringLess(k, m) {
        forall x | x in s
          ensures !StringLess(x, k)
        {
          StringLessIsStrict(x, k);
          if x != k && StringLess(x, k) {
            StringLessTransitive(x, k, m);
          }
        }
        assert IsLeast(k, s);
      } else {
        assert IsLeast(m, s);
      }
    }
  }

  /** sortedKeys: ascending, each key once. */
  ghost function SortedKeys(s: set<string>): (ks: seq<string>)
    ensures |ks| == |s|
    ensures forall k :: k in ks <==> k in s
  {
    if s == {} then []
    else
      LeastExists(s);
      var k :| IsLeast(k, s);
      [k] + SortedKeys(s - {k})
  }

  lemma {:induction false} SortedKeysAscend(s: set<string>)
    ensures Ascending(SortedKeys(s))
  {
    if s != {} {
      var ks := SortedKeys(s);
      SortedKeysAscend(s - {ks[0]});
      forall j | 0 < j < |ks|
        ensures StringLess(ks[0], ks[j])
      {
        assert ks[j] in ks[1..];
        StringLessIsStrict(ks[0], ks[j]);
      }
    }
  }

  /** An ascending list is determined by its elements. */
  lemma {:induction false} AscendingIsUnique(ks: seq<string>, ls: seq<string>)
    requires Ascending(ks) && Ascending(ls)
    requires forall k :: k in ks <==> k in ls
    ensures ks == ls
    decreases |ks|
  {
    if ks == [] {
      assert forall i :: 0 <= i < |ls| ==> ls[i] in ls;
    } else {
      assert ks[0] in ls;
      assert ls[0] in ks;
      AscendingHead(ks, ls[0]);
      AscendingHead(ls, ks[0]);
      StringLessIsStrict(ks[0], ls[0]);
      forall k
        ensures k in ks[1..] <==> k in ls[1..]
      {
        AscendingTail(ks, k);
        AscendingTail(ls, k);
      }
      AscendingIsUnique(ks[1..], ls[1..]);
    }
  }

  lemma AscendingHead(ks: seq<string>, k: string)
    requires Ascending(ks) && k in ks
    ensures k == ks[0] || StringLess(ks[0], k)
  {
  }

  lemma AscendingTail(ks: seq<string>, k: string)
    requires Ascending(ks) && ks != []
    ensures k in ks[1..] <==> k in ks && k != ks[0]
  {
    StringLessIsStrict(ks[0], ks[0]);
  }

  /** The program collects the keys in any order and sorts them; the result does not depend on
      the order. */
  method SortKeys(s: set<string>) returns (keys: seq<string>)
    ensures keys == SortedKeys(s)
  {
    var rest := s;
    var collected: seq<string> := [];
    while rest != {}
      invariant rest <= s
      invariant forall k :: k in s <==> k in rest || k in collected
      invariant forall k :: k in collected ==> k !in rest
      invariant Distinct(collected)
      decreases rest
    {
      var k :| k in rest;
      collected := collected + [k];
      rest := rest - {k};
    }
    var a := new string[|collected|](i requires 0 <= i < |collected| => collected[i]);
    assert a[..] == collected;
    SortInPlace(StringLess, a);
    keys := a[..];
    SortedDistinctAscends(collected);
    SortedKeysAscend(s);
    AscendingIsUnique(keys, SortedKeys(s));
  }

  // ----- leaves -----

  /** A step of a fact path: a map key or an array index. */
  type Path = seq<Value>

  datatype Leaf = Leaf(path: Path, value: Value)

  function Under(step: Value, l: Leaf): Leaf {
    Leaf([step] + l.path, l.value)
  }

  function AllUnder(step: Value, ls: seq<Leaf>): seq<Leaf> {
    Map((l: Leaf) => Under(step, l), ls)
  }

  /** The leaves below a value: paths relative to it, in key and index order. */
  ghost function Leaves(v: Value): seq<Leaf>
    decreases v, 1, 0
  {
    match v
    case Obj(fields) => KeyLeaves(v, SortedKeys(fields.Keys))
    case Arr(items) => ItemLeaves(v, |items|)
    case NilMap => []
    case _ => [Leaf([], v)]
  }

  /** The leaves below the listed keys of a map. */
  ghost function KeyLeaves(v: Value, keys: seq<string>): seq<Leaf>
    requires v.Obj? && forall k | k in keys :: k in v.fields
    decreases v, 0, |keys|
  {
    if keys == [] then []
    else
      var n := |keys| - 1;
      KeyLeaves(v, keys[..n]) + AllUnder(Str(keys[n]), Leaves(v.fields[keys[n]]))
  }

  /** The leaves below the first n items of an array. */
  ghost function ItemLeaves(v: Value, n: nat): seq<Leaf>
    requires v.Arr? && n <= |v.items|
    decreases v, 0, n
  {
    if n == 0 then []
    else ItemLeaves(v, n - 1) + AllUnder(Int(n - 1), Leaves(v.items[n - 1]))
  }

  // ----- the program's recursion, with its loops -----

  /** One fact_contents entry. */
  datatype Content = Content(path: Path, name: string, value: Value)

  /** lastPathName */
  function LastName(path: Path): string
    requires path != []
  {
    match path[|path| - 1]
    case Str(s) => s
    case Int(n) => if n < 0 then "-" + Itoa(-n) else Itoa(n)
    case _ => ""
  }

  function ContentAt(base: Path, l: Leaf): Content
    requires base != []
  {
    Content(base + l.path, LastName(base + l.path), l.value)
  }

  function ContentsOf(base: Path, ls: seq<Leaf>): seq<Content>
    requires base != []
  {
    Map((l: Leaf) => ContentAt(base, l), ls)
  }

  /** The contents of a value found at a base path. */
  ghost function Contents(base: Path, v: Value): seq<Content>
    requires base != []
  {
    ContentsOf(base, Leaves(v))
  }

  lemma {:induction false} ContentsUnder(base: Path, step: Value, ls: seq<Leaf>)
    requires base != []
    ensures ContentsOf(base, AllUnder(step, ls)) == ContentsOf(base + [step], ls)
  {
    var below, there := ContentsOf(base, AllUnder(step, ls)), ContentsOf(base + [step], ls);
    forall i | 0 <= i < |ls|
      ensures below[i] == there[i]
    {
      assert AllUnder(step, ls)[i] == Under(step, ls[i]);
      assert base + ([step] + ls[i].path) == (base + [step]) + ls[i].path;
    }
  }

  lemma ContentsAppend(base: Path, ls: seq<Leaf>, ms: seq<Leaf>)
    requires base != []
    ensures ContentsOf(base, ls + ms) == ContentsOf(base, ls) + ContentsOf(base, ms)
  {
    MapAppend((l: Leaf) => ContentAt(base, l), ls, ms);
  }

  lemma OneMoreKey(path: Path, v: Value, keys: seq<string>, i: nat)
    requires path != [] && v.Obj? && i < |keys| && forall k | k in keys :: k in v.fields
    ensures ContentsOf(path, KeyLeaves(v, keys[..i + 1])) ==
            ContentsOf(path, KeyLeaves(v, keys[..i])) + Contents(path + [Str(keys[i])], v.fields[keys[i]])
  {
    hide ContentsOf;
    assert keys[..i + 1][..i] == keys[..i];
    var leaves := Leaves(v.fields[keys[i]]);
    ContentsUnder(path, Str(keys[i]), leaves);
    ContentsAppend(path, KeyLeaves(v, keys[..i]), AllUnder(Str(keys[i]), leaves));
  }

  lemma AllKeys(path: Path, v: Value)
    requires path != [] && v.Obj?
    ensures Contents(path, v) == ContentsOf(path, KeyLeaves(v, SortedKeys(v.fields.Keys)))
  {
  }

  /** flattenFact */
  method FlattenFact(path: Path, v: Value) returns (out: seq<Content>)
    requires path != []
    ensures out == Contents(path, v)
    decreases v, 1
  {
    match v
    case Obj(_) =>
      out := FlattenMap(path, v);
    case Arr(_) =>
      out := FlattenArray(path, v);
    case NilMap =>
      out := [];
    case _ =>
      assert path + [] == path;
      out := [Content(path, LastName(path), v)];
  }

  method FlattenMap(path: Path, v: Value) returns (out: seq<Content>)
    requires path != [] && v.Obj?
    ensures out == Contents(path, v)
    decreases v, 0
  {
    hide Contents;
    var keys := SortKeys(v.fields.Keys);
    out := [];
    for i := 0 to |keys|
      invariant out == ContentsOf(path, KeyLeaves(v, keys[..i]))
    {
      var below := FlattenFact(path + [Str(keys[i])], v.fields[keys[i]]);
      OneMoreKey(path, v, keys, i);
      out := out + below;
    }
    assert keys[..|keys|] == keys;
    AllKeys(path, v);
  }

  method FlattenArray(path: Path, v: Value) returns (out: seq<Content>)
    requires path != [] && v.Arr?
    ensures out == Contents(path, v)
    decreases v, 0
  {
    out := [];
    for i := 0 to |v.items|
      invariant out == ContentsOf(path, ItemLeaves(v, i))
    {
      var below := FlattenFact(path + [Int(i)], v.items[i]);
      ghost var leaves := Leaves(v.items[i]);
      ContentsUnder(path, Int(i), leaves);
      ContentsAppend(path, ItemLeaves(v, i), AllUnder(Int(i), leaves));
      out := out + below;
    }
  }

  // ----- leaves lead back, in order -----

  function Lookup(v: Value, path: Path): Option<Value>
    decreases |path|
  {
    if path == [] then Some(v)
    else
      match (v, path[0])
      case (Obj(fields), Str(k)) => if k in fields then Lookup(fields[k], path[1..]) else None
      case (Arr(items), Int(i)) => if 0 <= i < |items| then Lookup(items[i], path[1..]) else None
      case _ => None
  }

  ghost predicate IsLeafOf(v: Value, l: Leaf) {
    Lookup(v, l.path) == Some(l.value) && IsScalar(l.value)
  }

  lemma InMap<S, T>(f: S -> T, xs: seq<S>, y: T)
    ensures y in Map(f, xs) <==> exists x :: x in xs && f(x) == y
  {
    if y in Map(f, xs) {
      var i :| 0 <= i < |xs| && Map(f, xs)[i] == y;
      assert xs[i] in xs && f(xs[i]) == y;
    }
    if x :| x in xs && f(x) == y {
      var i :| 0 <= i < |xs| && xs[i] == x;
      assert Map(f, xs)[i] == y;
    }
  }

  lemma InUnder(step: Value, ls: seq<Leaf>, l: Leaf)
    ensures l in AllUnder(step, ls) <==>
            l.path != [] && l.path[0] == step && Leaf(l.path[1..], l.value) in ls
  {
    var f := (l: Leaf) => Under(step, l);
    InMap(f, ls, l);
    if m :| m in ls && f(m) == l {
      assert l.path[1..] == m.path;
    }
    if l.path != [] && l.path[0] == step && Leaf(l.path[1..], l.value) in ls {
      assert [step] + l.path[1..] == l.path;
      assert f(Leaf(l.path[1..], l.value)) == l;
    }
  }

  /** The leaves are exactly the paths that lead to a scalar, with that scalar. */
  lemma {:induction false} LeavesAreLookups(v: Value, l: Leaf)
    ensures l in Leaves(v) <==> IsLeafOf(v, l)
    decreases v, 1, 0
  {
    match v
    case Obj(fields) =>
      KeyLeavesAreLookups(v, SortedKeys(fields.Keys), l);
    case Arr(items) =>
      ItemLeavesAreLookups(v, |items|, l);
    case _ =>
  }

  lemma {:induction false} KeyLeavesAreLookups(v: Value, keys: seq<string>, l: Leaf)
    requires v.Obj? && forall k | k in keys :: k in v.fields
    ensures l in KeyLeaves(v, keys) <==>
            l.path != [] && l.path[0].Str? && l.path[0].s in keys && IsLeafOf(v, l)
    decreases v, 0, |keys|
  {
    if keys != [] {
      var n := |keys| - 1;
      var k := keys[n];
      hide AllUnder, Leaves;
      KeyLeavesAreLookups(v, keys[..n], l);
      InUnder(Str(k), Leaves(v.fields[k]), l);
      if l.path != [] {
        LeavesAreLookups(v.fields[k], Leaf(l.path[1..], l.value));
      }
      assert forall x :: x in keys <==> x in keys[..n] || x == k;
    }
  }

  lemma {:induction false} ItemLeavesAreLookups(v: Value, n: nat, l: Leaf)
    requires v.Arr? && n <= |v.items|
    ensures l in ItemLeaves(v, n) <==>
            l.path != [] && l.path[0].Int? && 0 <= l.path[0].n < n && IsLeafOf(v, l)
    decreases v, 0, n
  {
    if n > 0 {
      ItemLeavesAreLookups(v, n - 1, l);
      InUnder(Int(n - 1), Leaves(v.items[n - 1]), l);
      if l.path != [] {
        LeavesAreLookups(v.items[n - 1], Leaf(l.path[1..], l.value));
      }
    }
  }

  predicate StepLess(a: Value, b: Value) {
    match (a, b)
    case (Str(s), Str(t)) => StringLess(s, t)
    case (Int(m), Int(n)) => m < n
    case _ => false
  }

  /** The paths part at some step, where the first takes the lesser one; so neither is a prefix
      of the other. */
  predicate PathLess(p: Path, q: Path) {
    p != [] && q != [] && (StepLess(p[0], q[0]) || (p[0] == q[0] && PathLess(p[1..], q[1..])))
  }

  ghost predicate InPathOrder(ls: seq<Leaf>) {
    forall i, j :: 0 <= i < j < |ls| ==> PathLess(ls[i].path, ls[j].path)
  }

  /** The step at which two ordered paths part. */
  lemma {:induction false} PathsPart(p: Path, q: Path) returns (i: nat)
    requires PathLess(p, q)
    ensures i < |p| && i < |q| && p[..i] == q[..i] && StepLess(p[i], q[i])
  {
    i := 0;
    if !StepLess(p[0], q[0]) {
      var j := PathsPart(p[1..], q[1..]);
      i := j + 1;
      assert p[..i] == [p[0]] + p[1..][..j] && q[..i] == [q[0]] + q[1..][..j];
    }
  }

  lemma PathLessIsNoPrefix(p: Path, q: Path)
    requires PathLess(p, q)
    ensures !(p <= q) && !(q <= p)
  {
    var i := PathsPart(p, q);
    if p[i].Str? {
      StringLessIsStrict(p[i].s, q[i].s);
    }
    assert p[i] != q[i];
  }

  lemma UnderKeepsOrder(step: Value, ls: seq<Leaf>)
    requires InPathOrder(ls)
    ensures InPathOrder(AllUnder(step, ls))
  {
    var us := AllUnder(step, ls);
    forall i, j | 0 <= i < j < |us|
      ensures PathLess(us[i].path, us[j].path)
    {
      assert us[i].path[1..] == ls[i].path && us[j].path[1..] == ls[j].path;
    }
  }

  lemma AppendKeepsOrder(ls: seq<Leaf>, ms: seq<Leaf>)
    requires InPathOrder(ls) && InPathOrder(ms)
    requires forall l, m | l in ls && m in ms :: PathLess(l.path, m.path)
    ensures InPathOrder(ls + ms)
  {
  }

  /** The leaves come in key and index order. */
  lemma {:induction false} LeavesAreInOrder(v: Value)
    ensures InPathOrder(Leaves(v))
    decreases v, 1, 0
  {
    match v
    case Obj(fields) =>
      SortedKeysAscend(fields.Keys);
      KeyLeavesAreInOrder(v, SortedKeys(fields.Keys));
    case Arr(items) =>
      ItemLeavesAreInOrder(v, |items|);
    case _ =>
  }

  lemma BelowEarlierKey(v: Value, keys: seq<string>, l: Leaf, m: Leaf)
    requires v.Obj? && keys != [] && (forall k | k in keys :: k in v.fields) && Ascending(keys)
    requires var n := |keys| - 1;
             l in KeyLeaves(v, keys[..n]) && m in AllUnder(Str(keys[n]), Leaves(v.fields[keys[n]]))
    ensures PathLess(l.path, m.path)
  {
    hide AllUnder, Leaves, KeyLeaves;
    var n := |keys| - 1;
    KeyLeavesAreLookups(v, keys[..n], l);
    InUnder(Str(keys[n]), Leaves(v.fields[keys[n]]), m);
    var i :| 0 <= i < n && keys[..n][i] == l.path[0].s;
    assert StringLess(keys[i], keys[n]);
  }

  lemma {:induction false} KeyLeavesAreInOrder(v: Value, keys: seq<string>)
    requires v.Obj? && (forall k | k in keys :: k in v.fields) && Ascending(keys)
    ensures InPathOrder(KeyLeaves(v, keys))
    decreases v, 0, |keys|
  {
    if keys != [] {
      var n := |keys| - 1;
      hide InPathOrder, AllUnder, Leaves, PathLess;
      KeyLeavesAreInOrder(v, keys[..n]);
      LeavesAreInOrder(v.fields[keys[n]]);
      var last := Leaves(v.fields[keys[n]]);
      UnderKeepsOrder(Str(keys[n]), last);
      forall l, m | l in KeyLeaves(v, keys[..n]) && m in AllUnder(Str(keys[n]), last)
        ensures PathLess(l.path, m.path)
      {
        BelowEarlierKey(v, keys, l, m);
      }
      AppendKeepsOrder(KeyLeaves(v, keys[..n]), AllUnder(Str(keys[n]), last));
    }
  }

  lemma {:induction false} ItemLeavesAreInOrder(v: Value, n: nat)
    requires v.Arr? && n <= |v.items|
    ensures InPathOrder(ItemLeaves(v, n))
    decreases v, 0, n
  {
    if n > 0 {
      hide InPathOrder, AllUnder, Leaves;
      ItemLeavesAreInOrder(v, n - 1);
      LeavesAreInOrder(v.items[n - 1]);
      var last := Leaves(v.items[n - 1]);
      UnderKeepsOrder(Int(n - 1), last);
      forall l, m | l in ItemLeaves(v, n - 1) && m in AllUnder(Int(n - 1), last)
        ensures PathLess(l.path, m.path)
      {
        ItemLeavesAreLookups(v, n - 1, l);
        InUnder(Int(n - 1), last, m);
      }
      AppendKeepsOrder(ItemLeaves(v, n - 1), AllUnder(Int(n - 1), last));
    }
  }

  // ----- rebuilding a value from its leaves -----

  /** A value as its leaves determine it: no trace of empty maps and arrays. */
  datatype Trie = Tip(value: Value) | Fork(below: map<Value, Trie>)

  function Below(t: Option<Trie>): map<Value, Trie> {
    if t.Some? && t.value.Fork? then t.value.below else map[]
  }

  function At(m: map<Value, Trie>, step: Value): Option<Trie> {
    if step in m then Some(m[step]) else None
  }

  function Plant(t: Option<Trie>, path: Path, v: Value): Trie
    decreases |path|
  {
    if path == [] then Tip(v)
    else Fork(Below(t)[path[0] := Plant(At(Below(t), path[0]), path[1..], v)])
  }

  /** Adds the leaves one by one. */
  function PlantAll(t: Option<Trie>, ls: seq<Leaf>): Option<Trie>
    decreases |ls|
  {
    if ls == [] then t else PlantAll(Some(Plant(t, ls[0].path, ls[0].value)), ls[1..])
  }

  /** The tree of the children that survive pruning. */
  function Grown(kids: map<Value, Trie>): Option<Trie> {
    if kids == map[] then None else Some(Fork(kids))
  }

  /** The value itself with empty maps and arrays removed, at every depth. */
  ghost function Prune(v: Value): Option<Trie>
    decreases v, 1
  {
    match v
    case Obj(fields) => Grown(KeyKids(v, fields.Keys))
    case Arr(items) => Grown(ItemKids(v, |items|))
    case NilMap => None
    case _ => Some(Tip(v))
  }

  ghost function KeyKids(v: Value, keys: set<string>): map<Value, Trie>
    requires v.Obj? && keys <= v.fields.Keys
    decreases v, 0
  {
    map k | k in keys && Prune(v.fields[k]).Some? :: Str(k) := Prune(v.fields[k]).value
  }

  ghost function ItemKids(v: Value, n: nat): map<Value, Trie>
    requires v.Arr? && n <= |v.items|
    decreases v, 0
  {
    map i: int | 0 <= i < n && Prune(v.items[i]).Some? :: Int(i) := Prune(v.items[i]).value
  }

  /** A further child joins the others unless nothing is left of it. */
  function Joined(kids: map<Value, Trie>, step: Value, child: Option<Trie>): map<Value, Trie> {
    if child.None? then kids else kids[step := child.value]
  }

  lemma KeyKidsStep(v: Value, keys: set<string>, k: string)
    requires v.Obj? && keys <= v.fields.Keys && k in v.fields && k !in keys
    ensures Str(k) !in KeyKids(v, keys)
    ensures KeyKids(v, keys + {k}) == Joined(KeyKids(v, keys), Str(k), Prune(v.fields[k]))
  {
    var before, after := KeyKids(v, keys), KeyKids(v, keys + {k});
    var joined := Joined(before, Str(k), Prune(v.fields[k]));
    assert after.Keys == joined.Keys;
    forall x | x in after
      ensures after[x] == joined[x]
    {
    }
  }

  lemma ItemKidsStep(v: Value, n: nat)
    requires v.Arr? && n < |v.items|
    ensures Int(n) !in ItemKids(v, n)
    ensures ItemKids(v, n + 1) == Joined(ItemKids(v, n), Int(n), Prune(v.items[n]))
  {
    var before, after := ItemKids(v, n), ItemKids(v, n + 1);
    var joined := Joined(before, Int(n), Prune(v.items[n]));
    assert after.Keys == joined.Keys;
    forall x | x in after
      ensures after[x] == joined[x]
    {
    }
  }

  lemma {:induction false} PlantAllAppend(t: Option<Trie>, ls: seq<Leaf>, ms: seq<Leaf>)
    ensures PlantAll(t, ls + ms) == PlantAll(PlantAll(t, ls), ms)
    decreases |ls|
  {
    if ls == [] {
      assert ls + ms == ms;
    } else {
      assert (ls + ms)[1..] == ls[1..] + ms;
      PlantAllAppend(Some(Plant(t, ls[0].path, ls[0].value)), ls[1..], ms);
    }
  }

  /** Leaves under one step grow the subtree at that step only. */
  lemma {:induction false} PlantUnder(m: map<Value, Trie>, t: Option<Trie>, step: Value, ls: seq<Leaf>)
    requires Below(t) == m && ls != []
    ensures PlantAll(At(m, step), ls).Some?
    ensures PlantAll(t, AllUnder(step, ls)) ==
            Some(Fork(m[step := PlantAll(At(m, step), ls).value]))
    decreases |ls|
  {
    var us := AllUnder(step, ls);
    assert us[0].path[1..] == ls[0].path;
    var first := Plant(At(m, step), ls[0].path, ls[0].value);
    var m' := m[step := first];
    assert Plant(t, us[0].path, us[0].value) == Fork(m');
    assert us[1..] == AllUnder(step, ls[1..]);
    if |ls| > 1 {
      PlantUnder(m', Some(Fork(m')), step, ls[1..]);
      assert At(m', step) == Some(first);
      assert m'[step := PlantAll(Some(first), ls[1..]).value] == m[step := PlantAll(Some(first), ls[1..]).value];
    }
  }

  /** One more child: its leaves grow its own tree, or nothing if it has none. */
  lemma PlantChild(kids: map<Value, Trie>, step: Value, child: Value)
    requires step !in kids
    requires PlantAll(None, Leaves(child)) == Prune(child)
    ensures PlantAll(Grown(kids), AllUnder(step, Leaves(child))) == Grown(Joined(kids, step, Prune(child)))
  {
    var ls := Leaves(child);
    if ls != [] {
      PlantUnder(kids, Grown(kids), step, ls);
    }
  }

  /** Rebuilding from the leaves gives the pruned value. */
  lemma {:induction false} LeavesRebuild(v: Value)
    ensures PlantAll(None, Leaves(v)) == Prune(v)
    decreases v, 1, 0
  {
    match v
    case Obj(fields) =>
      SortedKeysAscend(fields.Keys);
      KeyLeavesRebuild(v, SortedKeys(fields.Keys), fields.Keys);
    case Arr(items) =>
      ItemLeavesRebuild(v, |items|);
    case NilMap =>
    case _ =>
      assert [Leaf([], v)][1..] == [];
  }

  lemma {:induction false} KeyLeavesRebuild(v: Value, keys: seq<string>, s: set<string>)
    requires v.Obj? && s <= v.fields.Keys && (forall k :: k in keys <==> k in s) && Ascending(keys)
    ensures PlantAll(None, KeyLeaves(v, keys)) == Grown(KeyKids(v, s))
    decreases v, 0, |keys|
  {
    if keys == [] {
      assert s == {};
    } else {
      var n := |keys| - 1;
      var before, k := keys[..n], keys[n];
      StringLessIsStrict(k, k);
      assert k !in before;
      assert forall x :: x in keys <==> x in before || x == k;
      KeyLeavesRebuild(v, before, s - {k});
      KeyKidsStep(v, s - {k}, k);
      LeavesRebuild(v.fields[k]);
      assert s - {k} + {k} == s;
      RebuildStep(KeyLeaves(v, before), KeyKids(v, s - {k}), Str(k), v.fields[k]);
    }
  }

  lemma {:induction false} ItemLeavesRebuild(v: Value, n: nat)
    requires v.Arr? && n <= |v.items|
    ensures PlantAll(None, ItemLeaves(v, n)) == Grown(ItemKids(v, n))
    decreases v, 0, n
  {
    if n == 0 {
      NoItemKids(v);
    } else {
      var m := n - 1;
      ItemLeavesRebuild(v, m);
      LeavesRebuild(v.items[m]);
      ItemRebuildStep(v, m);
      assert n == m + 1;
    }
  }

  lemma ItemRebuildStep(v: Value, n: nat)
    requires v.Arr? && n < |v.items|
    requires PlantAll(None, ItemLeaves(v, n)) == Grown(ItemKids(v, n))
    requires PlantAll(None, Leaves(v.items[n])) == Prune(v.items[n])
    ensures PlantAll(None, ItemLeaves(v, n + 1)) == Grown(ItemKids(v, n + 1))
  {
    ItemKidsStep(v, n);
    RebuildStep(ItemLeaves(v, n), ItemKids(v, n), Int(n), v.items[n]);
  }

  lemma NoItemKids(v: Value)
    requires v.Arr?
    ensures ItemKids(v, 0) == map[]
  {
    assert ItemKids(v, 0).Keys == {};
  }

  /** Adds one child's leaves to the ones before it. */
  lemma RebuildStep(ls: seq<Leaf>, kids: map<Value, Trie>, step: Value, child: Value)
    requires PlantAll(None, ls) == Grown(kids) && step !in kids
    requires PlantAll(None, Leaves(child)) == Prune(child)
    ensures PlantAll(None, ls + AllUnder(step, Leaves(child))) == Grown(Joined(kids, step, Prune(child)))
  {
    PlantAllAppend(None, ls, AllUnder(step, Leaves(child)));
    PlantChild(kids, step, child);
  }
}
