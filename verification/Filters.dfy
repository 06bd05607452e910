/** What the tests of a filter mean on the values of a row. */
module Filters {
  import opened Wrappers
  import opened Seqs
  import opened Ast
  import opened Text
  import opened Values
  import opened Fields
  import opened Aggregate
  import opened Evaluator
  import opened FactPaths
  import opened Numbers
  import opened Meanings

  // ----- fields -----

  function KeySteps(parts: seq<string>): Path {
    Map((p: string) => Str(p), parts)
  }

  lemma {:induction false} DigIsLookup(v: Value, parts: seq<string>)
    ensures DigPath(v, parts) == Lookup(v, KeySteps(parts))
    decreases |parts|
  {
    if parts != [] {
      assert KeySteps(parts) == [Str(parts[0])] + KeySteps(parts[1..]);
      assert KeySteps(parts)[1..] == KeySteps(parts[1..]);
      if v.Obj? && parts[0] in v.fields {
        DigIsLookup(v.fields[parts[0]], parts[1..]);
      }
    }
  }

  /** A dotted field is the path of its segments, the kind of path that fact_contents records. */
  lemma FieldIsPath(row: Row, parts: seq<string>)
    requires parts != [] && forall i :: 0 <= i < |parts| ==> Dotless(parts[i])
    ensures DigField(row, Join(parts)) == Lookup(Obj(row), KeySteps(parts))
  {
    SplitJoin(parts);
    DigIsLookup(Obj(row), parts);
  }

  // ----- comparisons -----

  /** Each element, as the only column of a row, matches the pattern in its place. */
  predicate AllMatch(w: World, patterns: seq<string>, items: seq<Value>) {
    |items| == |patterns| &&
    forall i | 0 <= i < |patterns| ::
      EvalMatch(w, Comparison(Match, "element", LitString(patterns[i])), map["element" := items[i]]) == Ok(true)
  }

  lemma ElementsMatch(w: World, patterns: seq<string>, items: seq<Value>)
    requires forall p | p in patterns :: w.compiles(p)
    ensures AllMatch(w, patterns, items) <==>
            |items| == |patterns| &&
            forall i | 0 <= i < |patterns| :: items[i].Str? && w.matches(patterns[i], items[i].s)
  {
    hide EvalMatch;
    if |items| == |patterns| {
      forall i | 0 <= i < |patterns|
        ensures EvalMatch(w, Comparison(Match, "element", LitString(patterns[i])), map["element" := items[i]]) ==
                Ok(items[i].Str? && w.matches(patterns[i], items[i].s))
      {
        ElementMatches(w, patterns[i], items[i]);
      }
    }
  }

  lemma ElementMatches(w: World, pattern: string, v: Value)
    requires w.compiles(pattern)
    ensures EvalMatch(w, Comparison(Match, "element", LitString(pattern)), map["element" := v]) ==
            Ok(v.Str? && w.matches(pattern, v.s))
  {
    ElementColumn(v);
  }

  lemma ElementColumn(v: Value)
    ensures DigField(map["element" := v], "element") == Some(v)
  {
    var row: Row := map["element" := v];
    assert Dotless("element");
    SplitSegment("element", "");
    assert SplitDots("element") == ["element"];
    assert DigPath(Obj(row), ["element"]) == DigPath(v, []);
  }

  /** Strings compare bytewise; exactly one of less, equal and greater holds. */
  lemma StringTests(w: World, field: string, row: Row, t: string)
    requires DigField(row, field).Some? && DigField(row, field).value.Str?
    ensures var s := DigField(row, field).value.s;
            && EvalComparison(w, Eq, field, LitString(t), row) == Ok(s == t)
            && EvalComparison(w, Ne, field, LitString(t), row) == Ok(s != t)
            && EvalComparison(w, Lt, field, LitString(t), row) == Ok(StringLess(s, t))
            && EvalComparison(w, Gt, field, LitString(t), row) == Ok(StringLess(t, s))
            && EvalComparison(w, Le, field, LitString(t), row) == Ok(s == t || StringLess(s, t))
            && EvalComparison(w, Ge, field, LitString(t), row) == Ok(s == t || StringLess(t, s))
  {
    StringLessIsStrict(DigField(row, field).value.s, t);
  }

  /** Numbers compare by size with a number literal, whether they are held as integers or as
      floats; an infinite literal is beyond every finite number. */
  lemma NumberTests(w: World, field: string, row: Row, x: real)
    requires DigField(row, field).Some? && NumberOf(DigField(row, field).value) == Some(Fin(x))
    ensures forall y: real :: var l := LitNumber(Fin(y));
            && EvalComparison(w, Eq, field, l, row) == Ok(x == y)
            && EvalComparison(w, Ne, field, l, row) == Ok(x != y)
            && EvalComparison(w, Lt, field, l, row) == Ok(x < y)
            && EvalComparison(w, Gt, field, l, row) == Ok(x > y)
            && EvalComparison(w, Le, field, l, row) == Ok(x <= y)
            && EvalComparison(w, Ge, field, l, row) == Ok(x >= y)
    ensures forall op | op != Match && op != NoMatch ::
            && EvalComparison(w, op, field, LitNumber(PosInf), row) == Ok(op == Lt || op == Le || op == Ne)
            && EvalComparison(w, op, field, LitNumber(NegInf), row) == Ok(op == Gt || op == Ge || op == Ne)
  {
  }

  /** A missing field, and a value that is not of the literal's kind, is not equal to it, neither
      less nor greater. */
  lemma OtherKindTests(w: World, op: CmpOp, field: string, row: Row, l: Literal)
    requires op != Match && op != NoMatch
    requires var fv := DigField(row, field);
             fv.Some? ==>
               match l
               case LitString(_) => !fv.value.Str?
               case LitNumber(_) => NumberOf(fv.value).None?
               case LitBool(b) => fv.value != Bool(b)
               case LitNull => !fv.value.Null?
    ensures EvalComparison(w, op, field, l, row) == Ok(op == Ne)
  {
  }

  /** `~` finds the pattern in a string, `!~` is its negation, and a bad pattern is an error
      whatever the row holds. A literal that is no string is the empty pattern. */
  lemma RegexpTests(w: World, field: string, row: Row, l: Literal)
    ensures var pattern := if l.LitString? then l.str else "";
            if !w.compiles(pattern) then
              && EvalComparison(w, Match, field, l, row) == Err
              && EvalComparison(w, NoMatch, field, l, row) == Err
            else
              var found := exists s :: DigField(row, field) == Some(Str(s)) && w.matches(pattern, s);
              && EvalComparison(w, Match, field, l, row) == Ok(found)
              && EvalComparison(w, NoMatch, field, l, row) == Ok(!found)
  {
    if DigField(row, field).Some? && DigField(row, field).value.Str? {
      assert DigField(row, field) == Some(Str(DigField(row, field).value.s));
    }
  }

  /** `~>` tests the elements of an array one by one as `~` tests a string. */
  lemma RegexpArrayTests(w: World, field: string, patterns: seq<string>, row: Row)
    ensures EvalMatch(w, RegexpArray(field, patterns), row) ==
            if exists p | p in patterns :: EvalMatch(w, Comparison(Match, field, LitString(p)), row).Err? then Err
            else Ok(exists items :: DigField(row, field) == Some(Arr(items)) && AllMatch(w, patterns, items))
  {
    forall p
      ensures EvalMatch(w, Comparison(Match, field, LitString(p)), row).Err? <==> !w.compiles(p)
    {
    }
    if DigField(row, field).Some? && DigField(row, field).value.Arr? && forall p | p in patterns :: w.compiles(p) {
      ElementsMatch(w, patterns, DigField(row, field).value.items);
      assert DigField(row, field) == Some(Arr(DigField(row, field).value.items));
    }
  }

  /** `field is null` is membership in a list of null; `is not null` its negation. */
  lemma NullTests(w: World, field: string, row: Row)
    ensures EvalMatch(w, IsNull(field, false), row) == EvalMatch(w, InArray([field], [LitNull]), row)
    ensures EvalMatch(w, IsNull(field, true), row) == EvalMatch(w, Not(IsNull(field, false)), row)
    ensures EvalMatch(w, IsNull(field, false), row) == Ok(DigField(row, field) in {None, Some(Null)})
  {
    assert LitNull in [LitNull];
  }

  /** Membership in a list is equality with some element, except that a missing field is also
      a member of a list with null. */
  lemma InListIsAnyEqual(w: World, field: string, values: seq<Literal>, row: Row)
    ensures EvalMatch(w, InArray([field], values), row) ==
            Ok((exists l | l in values :: EvalComparison(w, Eq, field, l, row) == Ok(true)) ||
               (DigField(row, field).None? && LitNull in values))
  {
    var fv := DigField(row, field);
    forall l | l in values
      ensures ValueEqual(FieldValue(row, field), AsAny(l)) <==>
              (EvalComparison(w, Eq, field, l, row) == Ok(true) || (fv.None? && l == LitNull))
    {
    }
  }

  // ----- columns -----

  /** A projected row has exactly the projected columns, each with the value of its field. */
  lemma {:induction false} ProjectedColumns(items: seq<ProjItem>, row: Row, name: string)
    ensures name in ProjectRow(items, row) <==> exists it :: it in items && ItemColumn(it) == name
    ensures name in ProjectRow(items, row) ==> ProjectRow(items, row)[name] == FieldValue(row, name)
    decreases |items|
  {
    if items != [] {
      var before, it := items[..|items| - 1], items[|items| - 1];
      ProjectedColumns(before, row, name);
      assert forall x :: x in items <==> x in before || x == it;
    }
  }
}
