/** The clauses after the entity may come in any order: as long as no kind of clause is
    repeated, every arrangement of them parses to the same query, or none does. */
module AstClauses {
  import opened Wrappers
  import opened Seqs
  import opened Ast
  import opened Json
  import opened AstQuery

  datatype Kind = OrderBy | Limit | Offset | GroupBy | Inner

  function KindOf(item: Json): Kind {
    match NodeHead(item)
    case None => Inner
    case Some(head) =>
      if head == "order_by" then OrderBy
      else if head == "limit" then Limit
      else if head == "offset" then Offset
      else if head == "group_by" then GroupBy
      else Inner
  }

  predicate IsGroupBy(item: Json) {
    NodeHead(item) == Some("group_by")
  }

  /** An extract node that carries its own group_by. */
  predicate CarriesGroupBy(item: Json) {
    NodeHead(item) == Some("extract") && exists i :: 2 <= i < |item.items| && IsGroupBy(item.items[i])
  }

  /** Two clauses that write to different parts of the query. */
  predicate Independent(a: Json, b: Json) {
    && KindOf(a) != KindOf(b)
    && !(IsGroupBy(a) && CarriesGroupBy(b))
    && !(CarriesGroupBy(a) && IsGroupBy(b))
  }

  /** No kind of clause is repeated, and there is at most one group_by overall. */
  predicate NoRepeats(rest: seq<Json>) {
    forall i, j :: 0 <= i < j < |rest| ==> Independent(rest[i], rest[j])
  }

  /** The query under construction and what has been set in it. */
  datatype Progress = Progress(q: Query, innerSet: bool, groupSet: bool)

  function Step(p: Progress, item: Json): Result<Progress> {
    var kind := KindOf(item);
    if kind == GroupBy then
      if p.groupSet then Err
      else
        var items :- Traverse(ItemFrom, item.items[1..]);
        Ok(p.(q := p.q.(groupBy := items), groupSet := true))
    else if kind == Inner then
      if p.innerSet then Err
      else
        var q :- ApplyInner(p.q, item);
        Ok(p.(q := q, innerSet := true))
    else
      var q :- ApplyModifier(p.q, item.items);
      Ok(p.(q := q))
  }

  function Finish(p: Progress, rest: seq<Json>): Result<Query> {
    ApplyRest(p.q, rest, p.innerSet, p.groupSet)
  }

  lemma FinishSteps(p: Progress, item: Json, rest: seq<Json>)
    ensures Finish(p, [item] + rest) ==
            match Step(p, item) { case Err => Err case Ok(p') => Finish(p', rest) }
  {
    assert ([item] + rest)[1..] == rest;
  }

  // ----- which parts of the query a clause reads and writes -----

  /** Everything an inner clause neither reads nor writes. */
  function WithOuter(q: Query, o: Query): Query {
    q.(orderBy := o.orderBy, limit := o.limit, offset := o.offset)
  }

  lemma {:induction false} ExtrasKeepOuter(q: Query, o: Query, extras: seq<Json>)
    ensures ApplyExtras(WithOuter(q, o), extras) ==
            match ApplyExtras(q, extras) { case Err => Err case Ok(r) => Ok(WithOuter(r, o)) }
    decreases |extras|
  {
    if extras == [] {
    } else if IsGroupBy(extras[0]) {
      var items := Traverse(ItemFrom, extras[0].items[1..]);
      if items.Ok? {
        ExtrasKeepOuter(q.(groupBy := items.value), o, extras[1..]);
      }
    } else if q.filter.None? {
      var f := ExprFrom(extras[0]);
      if f.Ok? {
        ExtrasKeepOuter(q.(filter := Some(f.value)), o, extras[1..]);
      }
    }
  }

  lemma {:induction false} ExtrasKeepGroupBy(q: Query, items: seq<ProjItem>, extras: seq<Json>)
    requires forall i :: 0 <= i < |extras| ==> !IsGroupBy(extras[i])
    ensures ApplyExtras(q.(groupBy := items), extras) ==
            match ApplyExtras(q, extras) { case Err => Err case Ok(r) => Ok(r.(groupBy := items)) }
    decreases |extras|
  {
    if extras != [] && q.filter.None? {
      var f := ExprFrom(extras[0]);
      if f.Ok? {
        ExtrasKeepGroupBy(q.(filter := Some(f.value)), items, extras[1..]);
      }
    }
  }

  lemma InnerKeepsOuter(q: Query, o: Query, item: Json)
    ensures ApplyInner(WithOuter(q, o), item) ==
            match ApplyInner(q, item) { case Err => Err case Ok(r) => Ok(WithOuter(r, o)) }
  {
    if NodeHead(item) == Some("extract") && |item.items| >= 2 && item.items[1].JArr? {
      var proj := Traverse(ItemFrom, item.items[1].items);
      if proj.Ok? {
        ExtrasKeepOuter(q.(projection := proj.value), o, item.items[2..]);
      }
    }
  }

  lemma InnerKeepsGroupBy(q: Query, items: seq<ProjItem>, item: Json)
    requires !CarriesGroupBy(item)
    ensures ApplyInner(q.(groupBy := items), item) ==
            match ApplyInner(q, item) { case Err => Err case Ok(r) => Ok(r.(groupBy := items)) }
  {
    if NodeHead(item) == Some("extract") && |item.items| >= 2 && item.items[1].JArr? {
      var proj := Traverse(ItemFrom, item.items[1].items);
      if proj.Ok? {
        ExtrasKeepGroupBy(q.(projection := proj.value), items, item.items[2..]);
      }
    }
  }

  /** What a modifier does to a query it does to its modifiers only. */
  lemma ModifierKeepsInner(q: Query, item: Json)
    requires KindOf(item) != GroupBy && KindOf(item) != Inner
    ensures var r := ApplyModifier(q, item.items); r.Ok? ==> r.value == WithOuter(q, r.value)
    ensures forall q': Query :: q'.orderBy == q.orderBy && q'.limit == q.limit && q'.offset == q.offset ==>
              ApplyModifier(q', item.items) ==
              match ApplyModifier(q, item.items) { case Err => Err case Ok(r) => Ok(WithOuter(q', r)) }
  {
  }

  // ----- neighbours can be exchanged -----

  function Then(r: Result<Progress>, item: Json): Result<Progress> {
    match r
    case Err => Err
    case Ok(p) => Step(p, item)
  }

  lemma ExchangeModifierAndInner(p: Progress, m: Json, item: Json)
    requires KindOf(m) != GroupBy && KindOf(m) != Inner && KindOf(item) == Inner
    ensures Then(Step(p, m), item) == Then(Step(p, item), m)
  {
    hide ApplyInner, ApplyOrderBy, IntFrom;
    ModifierKeepsInner(p.q, m);
    var r := ApplyModifier(p.q, m.items);
    if r.Ok? {
      InnerKeepsOuter(p.q, r.value, item);
    }
    InnerKeepsOuter(p.q, p.q, item);
    assert WithOuter(p.q, p.q) == p.q;
    if !p.innerSet && ApplyInner(p.q, item).Ok? {
      var q' := ApplyInner(p.q, item).value;
      assert q' == WithOuter(q', p.q);
      assert ApplyModifier(q', m.items) ==
        match r { case Err => Err case Ok(x) => Ok(WithOuter(q', x)) };
    }
  }

  lemma ExchangeGroupByAndInner(p: Progress, g: Json, item: Json)
    requires KindOf(g) == GroupBy && KindOf(item) == Inner && !CarriesGroupBy(item)
    ensures Then(Step(p, g), item) == Then(Step(p, item), g)
  {
    var items := Traverse(ItemFrom, g.items[1..]);
    if items.Ok? {
      InnerKeepsGroupBy(p.q, items.value, item);
    }
  }

  lemma ExchangeModifiers(p: Progress, a: Json, b: Json)
    requires Independent(a, b) && KindOf(a) != Inner && KindOf(b) != Inner
    ensures Then(Step(p, a), b) == Then(Step(p, b), a)
  {
    // each of these kinds assigns a field of its own
    hide ApplyInner, IntFrom, TermFrom, ItemFrom;
  }

  lemma Exchange(p: Progress, a: Json, b: Json)
    requires Independent(a, b)
    ensures Then(Step(p, a), b) == Then(Step(p, b), a)
  {
    hide Step, Then;
    var ka, kb := KindOf(a), KindOf(b);
    if kb == Inner && ka == GroupBy {
      ExchangeGroupByAndInner(p, a, b);
    } else if ka == Inner && kb == GroupBy {
      ExchangeGroupByAndInner(p, b, a);
    } else if kb == Inner {
      ExchangeModifierAndInner(p, a, b);
    } else if ka == Inner {
      ExchangeModifierAndInner(p, b, a);
    } else {
      ExchangeModifiers(p, a, b);
    }
  }

  lemma {:induction false} MoveToFront(p: Progress, before: seq<Json>, a: Json, after: seq<Json>)
    requires forall i :: 0 <= i < |before| ==> Independent(before[i], a)
    ensures Finish(p, before + [a] + after) == Finish(p, [a] + (before + after))
    decreases |before|
  {
    if before == [] {
      assert before + [a] + after == [a] + (before + after);
    } else {
      var b, tail := before[0], before[1..];
      assert before + [a] + after == [b] + (tail + [a] + after);
      assert [a] + (before + after) == [a] + ([b] + (tail + after));
      FinishSteps(p, b, tail + [a] + after);
      FinishSteps(p, a, [b] + (tail + after));
      Exchange(p, b, a);
      match Step(p, b)
      case Err =>
        if Step(p, a).Ok? {
          FinishSteps(Step(p, a).value, b, tail + after);
        }
      case Ok(pb) =>
        MoveToFront(pb, tail, a, after);
        FinishSteps(pb, a, tail + after);
        if Step(p, a).Ok? {
          FinishSteps(Step(p, a).value, b, tail + after);
        }
    }
  }

  lemma {:induction false} ArrangementsFinishAlike(p: Progress, rest1: seq<Json>, rest2: seq<Json>)
    requires multiset(rest1) == multiset(rest2)
    requires NoRepeats(rest1)
    ensures Finish(p, rest1) == Finish(p, rest2)
    decreases |rest1|
  {
    if rest1 == [] {
      assert |multiset(rest2)| == 0;
    } else {
      var a, tail := rest1[0], rest1[1..];
      var before, after := TakeOut(rest1, rest2);
      forall i | 0 <= i < |before|
        ensures Independent(before[i], a)
      {
        assert before[i] in multiset(before + after);
        assert before[i] in tail;
      }
      MoveToFront(p, before, a, after);
      assert rest1 == [a] + tail;
      FinishSteps(p, a, tail);
      FinishSteps(p, a, before + after);
      if Step(p, a).Ok? {
        ArrangementsFinishAlike(Step(p, a).value, tail, before + after);
      }
    }
  }

  /** Every permutation of the clauses parses to the same query. */
  lemma ClauseOrderIsFree(entity: Json, rest1: seq<Json>, rest2: seq<Json>)
    requires multiset(rest1) == multiset(rest2)
    requires NoRepeats(rest1)
    ensures QueryFrom(JArr([JStr("from"), entity] + rest1)) == QueryFrom(JArr([JStr("from"), entity] + rest2))
  {
    var head := [JStr("from"), entity];
    assert (head + rest1)[2..] == rest1 && (head + rest2)[2..] == rest2;
    if entity.JStr? && entity.s in ENTITIES {
      ArrangementsFinishAlike(Progress(EmptyQuery(entity.s), false, false), rest1, rest2);
    }
  }
}
