/** What an accepted JSON query means: a reference interpreter of filter documents by their heads,
    and what each clause of a query document sets. */
module DocumentMeaning {
  import opened Wrappers
  import opened Seqs
  import opened Ast
  import opened Json
  import opened Compile
  import opened AstQuery
  import opened Values
  import opened Fields
  import opened Evaluator
  import opened Meanings
  import opened Filters
  import opened Outputs
  import opened Membership
  import opened Documents
  import opened LexerProofs

  // ----- scalars -----

  /** The value is the one that the document spells. */
  predicate IsSpelled(v: Value, j: Json) {
    match j
    case JNull => v.Null?
    case JBool(b) => v == Bool(b)
    case JNum(x) => NumberOf(v) == Some(x) && !x.NaN?
    case JStr(s) => v == Str(s)
    case _ => false
  }

  /** Both are numbers or both strings. */
  predicate IsComparable(v: Value, j: Json) {
    (j.JNum? && NumberOf(v).Some?) || (j.JStr? && v.Str?)
  }

  predicate IsBelow(v: Value, j: Json)
    requires IsComparable(v, j)
  {
    if j.JNum? then NumberBefore(NumberOf(v).value, j.x) else StringLess(v.s, j.s)
  }

  predicate IsAbove(v: Value, j: Json)
    requires IsComparable(v, j)
  {
    if j.JNum? then NumberBefore(j.x, NumberOf(v).value) else StringLess(j.s, v.s)
  }

  predicate Stands(head: string, v: Value, j: Json) {
    if head == "=" then IsSpelled(v, j)
    else
      IsComparable(v, j) &&
      ((head == "<" && IsBelow(v, j)) || (head == ">" && IsAbove(v, j))
       || (head == "<=" && !IsAbove(v, j)) || (head == ">=" && !IsBelow(v, j)))
  }

  function PatternOf(j: Json): string {
    if j.JStr? then j.s else ""
  }

  /** What a comparison answers, by its symbol, of a field's value, if there is one, and a
      scalar. */
  ghost function CompareTest(w: World, symbol: string, fv: Option<Value>, j: Json): Result<bool> {
    if symbol == "~" || symbol == "!~" then
      if !w.compiles(PatternOf(j)) then Err
      else
        var found := exists s :: fv == Some(Str(s)) && w.matches(PatternOf(j), s);
        Ok(found == (symbol == "~"))
    else if symbol == "!=" then Ok(fv.None? || !IsSpelled(fv.value, j))
    else Ok(fv.Some? && Stands(symbol, fv.value, j))
  }

  // ----- the interpreter -----

  function FieldsOf(j: Json): seq<string>
    requires IsFieldsDoc(j)
  {
    if j.JStr? then [j.s] else seq(|j.items|, i requires 0 <= i < |j.items| => j.items[i].s)
  }

  /** The field is missing or nil. */
  predicate HoldsNothing(fv: Option<Value>) {
    fv.None? || fv.value.Null?
  }

  /** The array matches the patterns, one for one. */
  predicate MatchesAll(w: World, ps: seq<string>, items: seq<Value>) {
    |items| == |ps| && forall i | 0 <= i < |ps| :: items[i].Str? && w.matches(ps[i], items[i].s)
  }

  ghost function PatternsAnswer(w: World, ps: seq<string>, fv: Option<Value>): Result<bool> {
    if exists p | p in ps :: !w.compiles(p) then Err
    else Ok(exists items :: fv == Some(Arr(items)) && MatchesAll(w, ps, items))
  }

  /** A filter document's test of a row. */
  ghost function DocTest(w: World, j: Json, row: Row): Result<bool>
    requires IsExprDoc(j)
    decreases j, 1
  {
    var head := j.items[0].s;
    if head == "and" then AllHold(w, j.items[1..], row)
    else if head == "or" then SomeHolds(w, j.items[1..], row)
    else if head == "not" then
      var b :- DocTest(w, j.items[1], row);
      Ok(!b)
    else if head == "null?" then Ok(j.items[2].b == HoldsNothing(DigField(row, j.items[1].s)))
    else if head == "~>" then PatternsAnswer(w, Map(PatternOf, j.items[2].items), DigField(row, j.items[1].s))
    else if head == "subquery" then Err
    else if head == "in" then MemberTest(w, FieldsOf(j.items[1]), j.items[2], row)
    else CompareTest(w, head, DigField(row, j.items[1].s), j.items[2])
  }

  /** Membership in a list, or in the answer of the query. */
  ghost function MemberTest(w: World, fields: seq<string>, j: Json, row: Row): Result<bool>
    requires IsListDoc(j) || IsQueryDoc(j)
  {
    if IsListDoc(j) then
      if |fields| != 1 then Err
      else Ok(exists l | l in j.items[1].items :: IsSpelled(FieldValue(row, fields[0]), l))
    else
      match QueryFrom(j)
      case Err => Err
      case Ok(sub) => MemberAnswer(w, fields, sub, row)
  }

  /** The row's tuple occurs in the subquery's answer. It is an error to project a function, to
      give other than one field for each column, and when the subquery fails. */
  ghost function MemberAnswer(w: World, fields: seq<string>, sub: Query, row: Row): Result<bool> {
    if !PlainItems(sub.projection) || |fields| != |sub.projection| || Eval(w, sub).Err? then Err
    else Ok(Occurs(row, fields, sub.projection, Eval(w, sub).value))
  }

  /** All of them hold, tested from the left until one does not. */
  ghost function AllHold(w: World, js: seq<Json>, row: Row): Result<bool>
    requires forall i :: 0 <= i < |js| ==> IsExprDoc(js[i])
    decreases js, 0
  {
    if js == [] then Ok(true)
    else
      var first :- DocTest(w, js[0], row);
      if first then AllHold(w, js[1..], row) else Ok(false)
  }

  /** One of them holds, tested from the left until one does. */
  ghost function SomeHolds(w: World, js: seq<Json>, row: Row): Result<bool>
    requires forall i :: 0 <= i < |js| ==> IsExprDoc(js[i])
    decreases js, 0
  {
    if js == [] then Ok(false)
    else
      var first :- DocTest(w, js[0], row);
      if first then Ok(true) else SomeHolds(w, js[1..], row)
  }

  // ----- the parser and the evaluator agree with it -----

  lemma ScalarMeans(v: Value, j: Json)
    requires IsScalarDoc(j)
    ensures LiteralFrom(j).Ok?
    ensures ValueEqual(v, AsAny(LiteralFrom(j).value)) <==> IsSpelled(v, j)
  {
  }

  lemma OrderMeans(op: CmpOp, fv: Option<Value>, j: Json)
    requires IsScalarDoc(j) && op in {Lt, Gt, Le, Ge}
    ensures LiteralFrom(j).Ok?
    ensures MatchOrder(op, fv, LiteralFrom(j).value) <==> fv.Some? && Stands(OpText(op), fv.value, j)
  {
    if fv.Some? && fv.value.Str? && j.JStr? {
      StringLessIsStrict(fv.value.s, j.s);
    }
  }

  lemma SymbolsDiffer(op: CmpOp)
    ensures (OpText(op) == "~" <==> op == Match) && (OpText(op) == "!~" <==> op == NoMatch)
    ensures (OpText(op) == "=" <==> op == Eq) && (OpText(op) == "!=" <==> op == Ne)
  {
  }

  lemma EqualMeans(fv: Option<Value>, j: Json)
    requires IsScalarDoc(j)
    ensures LiteralFrom(j).Ok?
    ensures (fv.Some? && ValueEqual(fv.value, AsAny(LiteralFrom(j).value))) <==> fv.Some? && Stands("=", fv.value, j)
    ensures fv.Some? ==> (IsSpelled(fv.value, j) <==> Stands("=", fv.value, j))
  {
    if fv.Some? {
      ScalarMeans(fv.value, j);
    }
  }

  lemma PatternOfLiteral(j: Json)
    requires IsScalarDoc(j)
    ensures LiteralFrom(j).Ok?
    ensures var l := LiteralFrom(j).value; PatternOf(j) == if l.LitString? then l.str else ""
  {
  }

  /** A comparison answers what its symbol says. */
  lemma CompareMeans(w: World, op: CmpOp, field: string, j: Json, row: Row)
    requires IsScalarDoc(j)
    ensures LiteralFrom(j).Ok?
    ensures EvalComparison(w, op, field, LiteralFrom(j).value, row) == CompareTest(w, OpText(op), DigField(row, field), j)
  {
    hide MatchOrder, Stands, OpText, ValueEqual, DigField, LiteralFrom, PatternOf, IsSpelled;
    SymbolsDiffer(op);
    EqualMeans(DigField(row, field), j);
    if op == Match || op == NoMatch {
      PatternOfLiteral(j);
      RegexpTests(w, field, row, LiteralFrom(j).value);
    } else if op != Eq && op != Ne {
      OrderMeans(op, DigField(row, field), j);
    }
  }

  ghost predicate Means(w: World, j: Json, row: Row) {
    IsExprDoc(j) ==> ExprFrom(j).Ok? && EvalMatch(w, ExprFrom(j).value, row) == DocTest(w, j, row)
  }

  lemma ComparisonRead(j: Json)
    requires IsExprDoc(j) && j.items[0].s in {"=", "~", "<", ">", "<=", ">="}
    ensures j.JArr? && |j.items| == 3 && j.items[0].JStr? && j.items[1].JStr? && IsScalarDoc(j.items[2])
    ensures CmpFrom(j.items[0].s).Some? && OpText(CmpFrom(j.items[0].s).value) == j.items[0].s
    ensures LiteralFrom(j.items[2]).Ok?
    ensures ExprFrom(j) == Ok(Comparison(CmpFrom(j.items[0].s).value, j.items[1].s, LiteralFrom(j.items[2]).value))
  {
  }

  lemma ComparisonDocMeans(w: World, j: Json, row: Row)
    requires IsExprDoc(j) && j.items[0].s in {"=", "~", "<", ">", "<=", ">="}
    ensures Means(w, j, row)
  {
    hide CompareTest, OpText, CmpFrom, IsExprDoc, ExprFrom, DigField, EvalComparison;
    ComparisonRead(j);
    CompareMeans(w, CmpFrom(j.items[0].s).value, j.items[1].s, j.items[2], row);
  }

  lemma NullDocMeans(w: World, j: Json, row: Row)
    requires IsExprDoc(j) && j.items[0].s == "null?"
    ensures Means(w, j, row)
  {
  }

  lemma StringsRead(j: Json)
    requires AreStrings(j)
    ensures StringsFrom(j) == Ok(Map(PatternOf, j.items))
  {
    StringsAreTidy(j);
    var ps := StringsFrom(j).value;
    forall i | 0 <= i < |ps|
      ensures ps[i] == PatternOf(j.items[i])
    {
      assert StringFrom(j.items[i]) == Ok(ps[i]);
    }
    assert ps == Map(PatternOf, j.items);
  }

  lemma PatternsRead(j: Json)
    requires IsExprDoc(j) && j.items[0].s == "~>"
    ensures j.JArr? && |j.items| == 3 && j.items[0].JStr? && j.items[1].JStr? && j.items[2].JArr?
    ensures ExprFrom(j) == Ok(RegexpArray(j.items[1].s, Map(PatternOf, j.items[2].items)))
  {
    StringsRead(j.items[2]);
  }

  /** The test of an array answers what its patterns say. */
  lemma PatternsMean(w: World, ps: seq<string>, field: string, row: Row)
    ensures EvalRegexpArray(w, field, ps, row) == PatternsAnswer(w, ps, DigField(row, field))
  {
    hide DigField;
    var v := FieldValue(row, field);
    if v.Arr? {
      assert DigField(row, field) == Some(Arr(v.items));
    }
  }

  lemma PatternsDocMeans(w: World, j: Json, row: Row)
    requires IsExprDoc(j) && j.items[0].s == "~>"
    ensures Means(w, j, row)
  {
    hide DigField, IsExprDoc, ExprFrom, EvalRegexpArray, PatternsAnswer;
    PatternsRead(j);
    PatternsMean(w, Map(PatternOf, j.items[2].items), j.items[1].s, row);
  }

  lemma FieldsRead(j: Json)
    requires IsFieldsDoc(j)
    ensures InFieldsFrom(j) == Ok(FieldsOf(j))
  {
    if !j.JStr? {
      StringsRead(j);
      assert Map(PatternOf, j.items) == FieldsOf(j);
    }
  }

  lemma SameExists(v: Value, docs: seq<Json>, values: seq<Literal>)
    requires |docs| == |values|
    requires forall i | 0 <= i < |docs| :: ValueEqual(v, AsAny(values[i])) <==> IsSpelled(v, docs[i])
    ensures (exists l | l in values :: ValueEqual(v, AsAny(l))) <==> exists l | l in docs :: IsSpelled(v, l)
  {
    hide ValueEqual, IsSpelled;
    if l :| l in values && ValueEqual(v, AsAny(l)) {
      var i :| 0 <= i < |values| && values[i] == l;
      assert docs[i] in docs && IsSpelled(v, docs[i]);
    }
    if l :| l in docs && IsSpelled(v, l) {
      var i :| 0 <= i < |docs| && docs[i] == l;
      assert values[i] in values && ValueEqual(v, AsAny(values[i]));
    }
  }

  lemma ListRead(j: Json)
    requires IsExprDoc(j) && j.items[0].s == "in" && IsListDoc(j.items[2])
    ensures j.JArr? && |j.items| == 3 && j.items[0].JStr? && IsFieldsDoc(j.items[1])
    ensures var docs := j.items[2].items[1].items;
            && Traverse(LiteralFrom, docs).Ok?
            && ExprFrom(j) == Ok(InArray(FieldsOf(j.items[1]), Traverse(LiteralFrom, docs).value))
  {
    hide FieldsOf, IsFieldsDoc;
    FieldsRead(j.items[1]);
    LiteralsAreTidy(j.items[2].items[1].items);
  }

  lemma ListTest(v: Value, docs: seq<Json>, values: seq<Literal>)
    requires Traverse(LiteralFrom, docs) == Ok(values)
    ensures (exists l | l in values :: ValueEqual(v, AsAny(l))) <==> exists l | l in docs :: IsSpelled(v, l)
  {
    hide ValueEqual, IsSpelled;
    LiteralsAreTidy(docs);
    forall i | 0 <= i < |docs|
      ensures ValueEqual(v, AsAny(values[i])) <==> IsSpelled(v, docs[i])
    {
      assert LiteralFrom(docs[i]) == Ok(values[i]);
      ScalarMeans(v, docs[i]);
    }
    SameExists(v, docs, values);
  }

  lemma ListDocMeans(w: World, j: Json, row: Row)
    requires IsExprDoc(j) && j.items[0].s == "in" && IsListDoc(j.items[2])
    ensures Means(w, j, row)
  {
    hide IsExprDoc, ExprFrom, FieldValue, ValueEqual, IsSpelled, FieldsOf, IsFieldsDoc;
    ListRead(j);
    var fields, docs := FieldsOf(j.items[1]), j.items[2].items[1].items;
    if |fields| == 1 {
      ListTest(FieldValue(row, fields[0]), docs, Traverse(LiteralFrom, docs).value);
    }
  }

  lemma SubRead(j: Json)
    requires IsExprDoc(j) && j.items[0].s == "in" && !IsListDoc(j.items[2])
    ensures j.JArr? && |j.items| == 3 && j.items[0].JStr? && IsFieldsDoc(j.items[1])
    ensures IsQueryDoc(j.items[2]) && QueryFrom(j.items[2]).Ok?
    ensures ExprFrom(j) == Ok(InQuery(FieldsOf(j.items[1]), QueryFrom(j.items[2]).value))
  {
    hide QueryFrom, IsQueryDoc, FieldsOf, IsFieldsDoc, Columns;
    FieldsRead(j.items[1]);
    QueryIsTidy(j.items[2]);
    QueryHead(j.items[2]);
  }

  lemma QueryHead(j: Json)
    requires IsQueryDoc(j)
    ensures NodeHead(j) == Some("from") && !IsListDoc(j)
  {
  }

  /** Membership in a subquery's answer is what its rows say. */
  lemma MemberMeans(w: World, fields: seq<string>, sub: Query, row: Row)
    ensures EvalMatch(w, InQuery(fields, sub), row) == MemberAnswer(w, fields, sub, row)
  {
    hide Eval, Occurs, RowAgrees;
    InQueryIsAnyRow(w, fields, sub, row);
    if PlainItems(sub.projection) && |fields| == |sub.projection| && Eval(w, sub).Ok? {
      InQueryIsOccurrence(w, fields, sub, row);
    }
  }

  lemma QueryDocMeans(w: World, j: Json, row: Row)
    requires IsExprDoc(j) && j.items[0].s == "in" && !IsListDoc(j.items[2])
    ensures Means(w, j, row)
  {
    hide IsExprDoc, ExprFrom, QueryFrom, IsQueryDoc, MemberAnswer, FieldsOf, IsFieldsDoc, IsListDoc;
    SubRead(j);
    MemberMeans(w, FieldsOf(j.items[1]), QueryFrom(j.items[2]).value, row);
  }

  lemma NotDocMeans(w: World, j: Json, row: Row)
    requires IsExprDoc(j) && j.items[0].s == "not" && Means(w, j.items[1], row)
    ensures Means(w, j, row)
  {
  }

  lemma SubqueryDocMeans(w: World, j: Json, row: Row)
    requires IsExprDoc(j) && j.items[0].s == "subquery"
    ensures Means(w, j, row)
  {
    hide IsExprDoc, ExprFrom;
    SubqueryRead(j);
  }

  lemma SubqueryRead(j: Json)
    requires IsExprDoc(j) && j.items[0].s == "subquery"
    ensures ExprFrom(j).Ok? && ExprFrom(j).value.Subquery?
  {
    ExprIsTidy(j);
  }

  ghost predicate FoldMeans(w: World, op: LogOp, acc: Expr, rest: seq<Json>, row: Row)
    requires forall i :: 0 <= i < |rest| ==> IsExprDoc(rest[i])
  {
    var first := EvalMatch(w, acc, row);
    FoldClauses(op, acc, rest).Ok? &&
    EvalMatch(w, FoldClauses(op, acc, rest).value, row) ==
      if first.Err? then Err
      else if op == And then (if first.value then AllHold(w, rest, row) else Ok(false))
      else if first.value then Ok(true) else SomeHolds(w, rest, row)
  }

  lemma FoldMeansStep(w: World, op: LogOp, acc: Expr, rest: seq<Json>, row: Row)
    requires rest != [] && forall i :: 0 <= i < |rest| ==> IsExprDoc(rest[i])
    requires Means(w, rest[0], row)
    requires ExprFrom(rest[0]).Ok? ==> FoldMeans(w, op, Logical(op, acc, ExprFrom(rest[0]).value), rest[1..], row)
    ensures FoldMeans(w, op, acc, rest, row)
  {
    hide IsExprDoc, ExprFrom, DocTest;
  }

  lemma {:induction false} ClausesMean(w: World, op: LogOp, acc: Expr, rest: seq<Json>, row: Row)
    requires forall i :: 0 <= i < |rest| ==> IsExprDoc(rest[i])
    ensures FoldMeans(w, op, acc, rest, row)
    decreases rest, 0
  {
    if rest == [] {
    } else {
      hide IsExprDoc, FoldMeans, Means;
      FilterMeans(w, rest[0], row);
      if ExprFrom(rest[0]).Ok? {
        ClausesMean(w, op, Logical(op, acc, ExprFrom(rest[0]).value), rest[1..], row);
      }
      FoldMeansStep(w, op, acc, rest, row);
    }
  }

  lemma LogicalDocMeans(w: World, op: LogOp, j: Json, row: Row)
    requires IsExprDoc(j) && j.items[0].s == LogName(op) && Means(w, j.items[1], row)
    requires forall i :: 2 <= i < |j.items| ==> IsExprDoc(j.items[i])
    requires ExprFrom(j.items[1]).Ok? ==> FoldMeans(w, op, ExprFrom(j.items[1]).value, j.items[2..], row)
    ensures Means(w, j, row)
  {
    assert ExprFrom(j) == LogicalFrom(op, j.items);
    assert j.items[1..][0] == j.items[1] && j.items[1..][1..] == j.items[2..];
  }

  /** A filter document that is accepted is evaluated as the interpreter evaluates it. */
  lemma {:induction false} FilterMeans(w: World, j: Json, row: Row)
    ensures Means(w, j, row)
    decreases j, 1
  {
    if IsExprDoc(j) {
      hide Means, FoldMeans, ExprFrom, DocTest;
      var head := j.items[0].s;
      if head in {"=", "~", "<", ">", "<=", ">="} {
        ComparisonDocMeans(w, j, row);
      } else if head == "and" || head == "or" {
        var op := if head == "and" then And else Or;
        FilterMeans(w, j.items[1], row);
        if ExprFrom(j.items[1]).Ok? {
          ClausesMean(w, op, ExprFrom(j.items[1]).value, j.items[2..], row);
        }
        LogicalDocMeans(w, op, j, row);
      } else if head == "not" {
        FilterMeans(w, j.items[1], row);
        NotDocMeans(w, j, row);
      } else if head == "null?" {
        NullDocMeans(w, j, row);
      } else if head == "~>" {
        PatternsDocMeans(w, j, row);
      } else if head == "subquery" {
        SubqueryDocMeans(w, j, row);
      } else if IsListDoc(j.items[2]) {
        ListDocMeans(w, j, row);
      } else {
        QueryDocMeans(w, j, row);
      }
    }
  }

  // ----- what the clauses of a query say -----

  /** The filter documents of a query, in its extract node or on their own. */
  function FilterDocs(clauses: seq<Json>): seq<Json> {
    if clauses == [] then [] else FilterDocsOf(clauses[0]) + FilterDocs(clauses[1..])
  }

  function FilterDocsOf(j: Json): seq<Json> {
    if !IsInnerDoc(j) then []
    else if !IsNode(j, "extract") then [j]
    else if |j.items| < 2 then []
    else Others(j.items[2..])
  }

  /** The filter read from the first of the documents, or the one there was. */
  function ReadFilter(docs: seq<Json>, before: Option<Expr>): Option<Expr> {
    if docs == [] then before
    else
      match ExprFrom(docs[0])
      case Err => None
      case Ok(e) => Some(e)
  }

  lemma {:induction false} ExtrasSetFilter(q: Query, extras: seq<Json>)
    ensures var r := ApplyExtras(q, extras);
            r.Ok? ==> r.value.filter == ReadFilter(Others(extras), q.filter) && (q.filter.Some? ==> Others(extras) == [])
    decreases extras
  {
    hide ExprFrom, ItemFrom;
    if extras != [] && ApplyExtras(q, extras).Ok? {
      assert extras == [extras[0]] + extras[1..];
      OthersCons(extras[0], extras[1..]);
      NodesHaveHeads(extras[0], "group_by");
      if IsNode(extras[0], "group_by") {
        ExtrasSetFilter(q.(groupBy := Traverse(ItemFrom, extras[0].items[1..]).value), extras[1..]);
      } else {
        ExtrasSetFilter(q.(filter := Some(ExprFrom(extras[0]).value)), extras[1..]);
      }
    }
  }

  lemma InnerSetsFilter(q: Query, j: Json)
    requires IsInnerDoc(j) && q.filter == None && ApplyInner(q, j).Ok?
    ensures ApplyInner(q, j).value.filter == ReadFilter(FilterDocsOf(j), None)
  {
    hide ExprFrom, ItemFrom;
    NodesHaveHeads(j, "extract");
    if IsNode(j, "extract") {
      ExtrasSetFilter(q.(projection := Traverse(ItemFrom, j.items[1].items).value), j.items[2..]);
    }
  }

  lemma ModifierKeepsFilter(q: Query, items: seq<Json>)
    requires NodeHead(JArr(items)).Some? && IsModifierHead(items[0].s) && ApplyModifier(q, items).Ok?
    ensures ApplyModifier(q, items).value.filter == q.filter
  {
  }

  lemma InnerOnly(j: Json)
    ensures IsInnerDoc(j) <==> !(NodeHead(j).Some? && IsModifierHead(NodeHead(j).value)) && NodeHead(j) != Some("group_by")
  {
  }

  lemma {:induction false} RestSetsFilter(q: Query, rest: seq<Json>, innerSet: bool, groupSet: bool)
    requires !innerSet ==> q.filter == None
    ensures var r := ApplyRest(q, rest, innerSet, groupSet);
            r.Ok? ==> r.value.filter == ReadFilter(FilterDocs(rest), q.filter) && (innerSet ==> FilterDocs(rest) == [])
    decreases rest
  {
    hide ExprFrom, ItemFrom, ApplyInner, ApplyModifier, FilterDocsOf, IsInnerDoc;
    if rest != [] && ApplyRest(q, rest, innerSet, groupSet).Ok? {
      var item := rest[0];
      InnerOnly(item);
      NoFilterDocs(item);
      assert [] + FilterDocs(rest[1..]) == FilterDocs(rest[1..]);
      if !IsInnerDoc(item) {
        if NodeHead(item) == Some("group_by") {
          RestSetsFilter(q.(groupBy := Traverse(ItemFrom, item.items[1..]).value), rest[1..], innerSet, true);
        } else {
          ModifierKeepsFilter(q, item.items);
          RestSetsFilter(ApplyModifier(q, item.items).value, rest[1..], innerSet, groupSet);
        }
      } else {
        InnerSetsFilter(q, item);
        RestSetsFilter(ApplyInner(q, item).value, rest[1..], true, groupSet);
        assert FilterDocsOf(item) + [] == FilterDocsOf(item);
      }
    }
  }

  lemma NoFilterDocs(j: Json)
    ensures !IsInnerDoc(j) ==> FilterDocsOf(j) == []
  {
  }

  /** The document of a column. */
  predicate SaysItem(j: Json, it: ProjItem) {
    match it
    case Field(field) => j == JStr(field)
    case Call(f) =>
      && j.JArr? && |j.items| == |f.args| + 2 && j.items[0] == JStr("function") && j.items[1] == JStr(f.name)
      && forall i :: 0 <= i < |f.args| ==> j.items[i + 2] == JStr(f.args[i].text)
  }

  predicate SayItems(js: seq<Json>, items: seq<ProjItem>) {
    |js| == |items| && forall i :: 0 <= i < |js| ==> SaysItem(js[i], items[i])
  }

  predicate SayTerms(js: seq<Json>, terms: seq<OrderTerm>) {
    |js| == |terms| && forall i :: 0 <= i < |js| ==>
      js[i] == JArr([JStr(terms[i].field), JStr(if terms[i].desc then "desc" else "asc")])
  }

  /** The last document with the head sets the number. */
  predicate IsCount(n: Option<nat>, head: string, clauses: seq<Json>) {
    LastCount(head, clauses) == if n.None? then [] else [JArr([JStr(head), JInt(n.value)])]
  }

  lemma ItemOfAst(it: ProjItem)
    ensures SaysItem(ItemAst(it), it)
  {
  }

  lemma ItemsOfAst(items: seq<ProjItem>)
    ensures SayItems(Map(ItemAst, items), items)
  {
    hide SaysItem, ItemAst;
    forall i | 0 <= i < |items| {
      ItemOfAst(items[i]);
    }
  }

  /** An accepted query document sets the entity it names, the columns of its extract node, the
      last group_by, all order_by terms with their directions, the last limit, the last offset and
      its only filter, whatever their order. */
  lemma DocumentSays(j: Json)
    requires QueryFrom(j).Ok?
    ensures j.JArr? && |j.items| >= 2
    ensures var r, cs := QueryFrom(j).value, j.items[2..];
            && j.items[1] == JStr(r.entity)
            && SayItems(Columns(cs), r.projection)
            && SayItems((match LastGroup(cs) case None => [] case Some(g) => GroupItems(g)), r.groupBy)
            && SayTerms(Terms(cs), r.orderBy)
            && IsCount(r.limit, "limit", cs)
            && IsCount(r.offset, "offset", cs)
            && r.filter == ReadFilter(FilterDocs(cs), None)
  {
    hide ApplyRest, SayItems, IsClauseDoc, Columns, LastGroup, Terms, LastCount, Inners, ItemAst, FilterDocs, ReadFilter;
    var r, cs := QueryFrom(j).value, j.items[2..];
    var q := EmptyQuery(j.items[1].s);
    RestIsTidy(q, cs, false, false);
    RestSetsFilter(q, cs, false, false);
    assert Follows(q, cs, r);
    ItemsOfAst(r.projection);
    ItemsOfAst(r.groupBy);
    if Inners(cs) == [] {
      NoInners(cs);
    }
    assert [] + Terms(cs) == Terms(cs);
  }

  /** So a query document selects the rows on which the interpreter's test of its filter holds. */
  lemma FilterDocMeans(w: World, j: Json, row: Row)
    requires QueryFrom(j).Ok?
    ensures j.JArr? && |j.items| >= 2
    ensures var docs := FilterDocs(j.items[2..]);
            (docs != [] ==> IsExprDoc(docs[0])) &&
            MatchFilter(w, QueryFrom(j).value.filter, row) == if docs == [] then Ok(true) else DocTest(w, docs[0], row)
  {
    hide FilterDocs, DocTest, IsExprDoc, ExprFrom, EvalMatch, QueryFrom;
    DocumentSays(j);
    var docs := FilterDocs(j.items[2..]);
    if docs != [] {
      FilterDocsAreRead(j);
      FilterMeans(w, docs[0], row);
    }
  }

  lemma FilterDocsAreRead(j: Json)
    requires QueryFrom(j).Ok? && j.JArr? && |j.items| >= 2 && FilterDocs(j.items[2..]) != []
    ensures IsExprDoc(FilterDocs(j.items[2..])[0])
  {
    hide FilterDocsOf, IsExprDoc, ExprFrom;
    QueryIsTidy(j);
    FilterDocsAreExprs(j.items[2..]);
  }

  lemma {:induction false} FilterDocsAreExprs(clauses: seq<Json>)
    requires forall i :: 0 <= i < |clauses| ==> IsClauseDoc(clauses[i])
    ensures forall x :: x in FilterDocs(clauses) ==> IsExprDoc(x)
    decreases clauses
  {
    hide IsClauseDoc, IsExprDoc, FilterDocsOf;
    if clauses != [] {
      FilterDocsAreExprs(clauses[1..]);
      ClauseFilters(clauses[0]);
    }
  }

  lemma ClauseFilters(j: Json)
    requires IsClauseDoc(j)
    ensures forall x :: x in FilterDocsOf(j) ==> IsExprDoc(x)
  {
    hide IsExprDoc;
    if IsNode(j, "extract") {
      forall x | x in FilterDocsOf(j)
        ensures IsExprDoc(x)
      {
        var i :| 0 <= i < |j.items[2..]| && j.items[2..][i] == x;
        assert j.items[i + 2] == x;
      }
    }
  }
}
