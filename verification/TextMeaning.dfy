/** What a query text means: a reference interpreter of filters by the words and symbols they are
    written with, and what each clause of a query sets. The derivations are those of lexed
    tokens. */
module TextMeaning {
  import opened Wrappers
  import opened Seqs
  import opened Ast
  import opened Json
  import opened AstQuery
  import opened Text
  import opened LexerProofs
  import opened Grammar
  import opened Values
  import opened Fields
  import opened Evaluator
  import opened FactPaths
  import opened Meanings
  import opened Filters
  import opened Outputs
  import opened Membership
  import opened Documents
  import opened DocumentMeaning
  import opened PrinterProofs
  import opened Rewriting

  // ----- the interpreter -----

  /** The scalar that a literal of the language writes. */
  function ScalarOf(l: LitTree): Json {
    match l
    case StringLit(text) => JStr(text)
    case NumberLit(text) => JNum(ParseFloat(text))
    case TrueLit => JBool(true)
    case FalseLit => JBool(false)
    case NullLit => JNull
  }

  /** What the path leads to, segment by segment. */
  function FieldAt(row: Row, f: Grammar.Path): Option<Value> {
    Lookup(Obj(row), KeySteps(f))
  }

  /** The same, with nil for a field that is missing. */
  function ValueAt(row: Row, f: Grammar.Path): Value {
    match FieldAt(row, f)
    case None => Null
    case Some(v) => v
  }

  function PathsOf(lhs: LhsTree): seq<Grammar.Path> {
    match lhs
    case Bare(field) => [field]
    case Listed(fields) => fields
  }

  /** Membership of the only field in a list of literals. */
  function ListAnswer(fields: seq<Grammar.Path>, lits: seq<LitTree>, row: Row): Result<bool> {
    if |fields| != 1 then Err else Ok(exists l | l in lits :: IsSpelled(ValueAt(row, fields[0]), ScalarOf(l)))
  }

  /** Every field is the column in its place. */
  predicate SameAt(row: Row, fields: seq<Grammar.Path>, r: Row, items: seq<ProjItem>)
    requires |fields| == |items| && PlainItems(items)
  {
    forall i | 0 <= i < |fields| :: SameMeaning(ValueAt(row, fields[i]), Column(r, items[i].field))
  }

  /** Membership of the fields in the answer of the subquery. */
  ghost function SubAnswer(w: World, fields: seq<Grammar.Path>, sub: Query, row: Row): Result<bool> {
    if !PlainItems(sub.projection) || |fields| != |sub.projection| || Eval(w, sub).Err? then Err
    else Ok(exists r | r in Eval(w, sub).value :: SameAt(row, fields, r, sub.projection))
  }

  /** `or`: the operands are tested from the left until one holds. */
  ghost function OrTest(w: World, t: OrTree, row: Row): Result<bool>
    decreases t
  {
    match t
    case OrOne(a) => AndTest(w, a, row)
    case OrMore(init, last) =>
      var before :- OrTest(w, init, row);
      if before then Ok(true) else AndTest(w, last, row)
  }

  /** `and`: the operands are tested from the left until one does not hold. */
  ghost function AndTest(w: World, t: AndTree, row: Row): Result<bool>
    decreases t
  {
    match t
    case AndOne(n) => NotTest(w, n, row)
    case AndMore(init, last) =>
      var before :- AndTest(w, init, row);
      if before then NotTest(w, last, row) else Ok(false)
  }

  ghost function NotTest(w: World, t: NotTree, row: Row): Result<bool>
    decreases t
  {
    match t
    case NotOf(n) =>
      var b :- NotTest(w, n, row);
      Ok(!b)
    case Atom(p) => PrimTest(w, p, row)
  }

  ghost function PrimTest(w: World, p: PrimTree, row: Row): Result<bool>
    decreases p
  {
    match p
    case Paren(e) => OrTest(w, e, row)
    case Compare(field, op, lit) => CompareTest(w, OpText(op), FieldAt(row, field), ScalarOf(lit))
    case Patterns(field, ps) => PatternsAnswer(w, ps, FieldAt(row, field))
    case NullTest(field, negate) => Ok(HoldsNothing(FieldAt(row, field)) != negate)
    case Implicit(_, _) => Err
    case MemberOfList(lhs, lits) => ListAnswer(PathsOf(lhs), lits, row)
    case MemberOfQuery(lhs, sub) => SubAnswer(w, PathsOf(lhs), QueryValue(sub), row)
  }

  // ----- the parser and the evaluator agree with it -----

  lemma PathLooksUp(row: Row, f: Grammar.Path)
    requires IsPath(f) && LexedPath(f)
    ensures DigField(row, PathValue(f)) == FieldAt(row, f)
    ensures FieldValue(row, PathValue(f)) == ValueAt(row, f)
  {
    hide Lookup;
    forall i | 0 <= i < |f|
      ensures Dotless(f[i])
    {
      IdentIsDotless(f[i]);
    }
    FieldIsPath(row, f);
  }

  lemma PathsLookUp(row: Row, lhs: LhsTree)
    requires IsLhs(lhs) && LexedLhs(lhs)
    ensures var names, fields := LhsValue(lhs), PathsOf(lhs);
            |names| == |fields| && forall i :: 0 <= i < |fields| ==> FieldValue(row, names[i]) == ValueAt(row, fields[i])
  {
    hide PathValue, FieldValue, ValueAt;
    forall i | 0 <= i < |PathsOf(lhs)|
      ensures FieldValue(row, LhsValue(lhs)[i]) == ValueAt(row, PathsOf(lhs)[i])
    {
      PathLooksUp(row, PathsOf(lhs)[i]);
    }
  }

  lemma LiteralIsScalar(l: LitTree)
    ensures IsScalarDoc(ScalarOf(l)) && LiteralFrom(ScalarOf(l)) == Ok(LitValue(l))
  {
  }

  lemma CompareAnswers(w: World, field: Grammar.Path, op: CmpOp, lit: LitTree, row: Row)
    requires IsPath(field) && LexedPath(field)
    ensures EvalMatch(w, PrimValue(Compare(field, op, lit)), row) ==
            CompareTest(w, OpText(op), FieldAt(row, field), ScalarOf(lit))
  {
    hide EvalComparison, CompareTest, DigField, OpText, PathValue, LitValue, FieldAt;
    PathLooksUp(row, field);
    LiteralIsScalar(lit);
    CompareMeans(w, op, PathValue(field), ScalarOf(lit), row);
  }

  lemma PatternsAnswers(w: World, field: Grammar.Path, ps: seq<string>, row: Row)
    requires IsPath(field) && LexedPath(field)
    ensures EvalMatch(w, PrimValue(Patterns(field, ps)), row) == PatternsAnswer(w, ps, FieldAt(row, field))
  {
    hide DigField, PathValue, EvalRegexpArray, PatternsAnswer, FieldAt;
    PathLooksUp(row, field);
    PatternsMean(w, ps, PathValue(field), row);
  }

  lemma NullAnswers(w: World, field: Grammar.Path, negate: bool, row: Row)
    requires IsPath(field) && LexedPath(field)
    ensures EvalMatch(w, PrimValue(NullTest(field, negate)), row) ==
            Ok(HoldsNothing(FieldAt(row, field)) != negate)
  {
    hide DigField, PathValue, FieldAt;
    PathLooksUp(row, field);
  }

  lemma InArrayTest(w: World, fields: seq<string>, values: seq<Literal>, row: Row)
    ensures EvalMatch(w, InArray(fields, values), row) ==
            if |fields| != 1 then Err
            else Ok(exists l | l in values :: ValueEqual(FieldValue(row, fields[0]), AsAny(l)))
  {
  }

  lemma ListAnswers(w: World, lhs: LhsTree, lits: seq<LitTree>, row: Row)
    requires IsLhs(lhs) && LexedLhs(lhs)
    ensures EvalMatch(w, PrimValue(MemberOfList(lhs, lits)), row) == ListAnswer(PathsOf(lhs), lits, row)
  {
    hide EvalMatch, FieldValue, ValueAt, IsSpelled, ValueEqual, LhsValue, PathsOf, LitValue, ScalarOf, AsAny;
    PathsLookUp(row, lhs);
    var fields := LhsValue(lhs);
    InArrayTest(w, fields, Map(LitValue, lits), row);
    if |fields| == 1 {
      LiteralsAnswer(FieldValue(row, fields[0]), lits);
    }
  }

  lemma LiteralsAnswer(v: Value, lits: seq<LitTree>)
    ensures (exists l | l in Map(LitValue, lits) :: ValueEqual(v, AsAny(l))) <==>
            exists l | l in lits :: IsSpelled(v, ScalarOf(l))
  {
    hide ValueEqual, IsSpelled, AsAny;
    var values := Map(LitValue, lits);
    forall i | 0 <= i < |lits|
      ensures ValueEqual(v, AsAny(values[i])) <==> IsSpelled(v, ScalarOf(lits[i]))
    {
      LiteralIsScalar(lits[i]);
      ScalarMeans(v, ScalarOf(lits[i]));
    }
    AnyByIndex(values, lits, (l: Literal) => ValueEqual(v, AsAny(l)), (l: LitTree) => IsSpelled(v, ScalarOf(l)));
  }

  lemma TuplesAgree(row: Row, lhs: LhsTree, r: Row, items: seq<ProjItem>)
    requires IsLhs(lhs) && LexedLhs(lhs)
    ensures |LhsValue(lhs)| == |PathsOf(lhs)|
    ensures PlainItems(items) && |items| == |PathsOf(lhs)| ==>
              (SameTuple(row, LhsValue(lhs), r, items) <==> SameAt(row, PathsOf(lhs), r, items))
  {
    hide FieldValue, ValueAt, SameMeaning, LhsValue, PathsOf, LexedLhs, IsLhs;
    PathsLookUp(row, lhs);
  }

  lemma SubAnswers(w: World, lhs: LhsTree, q: Query, row: Row)
    requires IsLhs(lhs) && LexedLhs(lhs)
    ensures MemberAnswer(w, LhsValue(lhs), q, row) == SubAnswer(w, PathsOf(lhs), q, row)
  {
    hide Eval, SameTuple, SameAt, LhsValue, PathsOf, LexedLhs, IsLhs, PlainItems;
    TuplesAgree(row, lhs, row, q.projection);
    if PlainItems(q.projection) && |LhsValue(lhs)| == |q.projection| && Eval(w, q).Ok? {
      forall r | r in Eval(w, q).value
        ensures SameTuple(row, LhsValue(lhs), r, q.projection) <==> SameAt(row, PathsOf(lhs), r, q.projection)
      {
        TuplesAgree(row, lhs, r, q.projection);
      }
    }
  }

  lemma QueryAnswers(w: World, lhs: LhsTree, sub: QueryTree, row: Row)
    requires IsLhs(lhs) && LexedLhs(lhs)
    ensures EvalMatch(w, PrimValue(MemberOfQuery(lhs, sub)), row) == SubAnswer(w, PathsOf(lhs), QueryValue(sub), row)
  {
    hide EvalMatch, MemberAnswer, SubAnswer, LhsValue, PathsOf, QueryValue, LexedLhs, IsLhs;
    MemberMeans(w, LhsValue(lhs), QueryValue(sub), row);
    SubAnswers(w, lhs, QueryValue(sub), row);
  }

  lemma PrimValues(w: World, p: PrimTree, row: Row)
    ensures p.Paren? ==> PrimValue(p) == OrValue(p.e)
    ensures p.Implicit? ==> EvalMatch(w, PrimValue(p), row) == Err
  {
  }

  lemma {:induction false} OrMeans(w: World, t: OrTree, row: Row)
    requires IsOr(t) && LexedOr(t)
    ensures EvalMatch(w, OrValue(t), row) == OrTest(w, t, row)
    decreases t
  {
    hide AndTest, AndValue, IsAnd, LexedAnd;
    match t
    case OrOne(a) => AndMeans(w, a, row);
    case OrMore(init, last) =>
      OrMeans(w, init, row);
      AndMeans(w, last, row);
  }

  lemma {:induction false} AndMeans(w: World, t: AndTree, row: Row)
    requires IsAnd(t) && LexedAnd(t)
    ensures EvalMatch(w, AndValue(t), row) == AndTest(w, t, row)
    decreases t
  {
    hide NotTest, NotValue, IsNot, LexedNot;
    match t
    case AndOne(n) => NotMeans(w, n, row);
    case AndMore(init, last) =>
      AndMeans(w, init, row);
      NotMeans(w, last, row);
  }

  lemma {:induction false} NotMeans(w: World, t: NotTree, row: Row)
    requires IsNot(t) && LexedNot(t)
    ensures EvalMatch(w, NotValue(t), row) == NotTest(w, t, row)
    decreases t
  {
    hide PrimTest, PrimValue, IsPrim, LexedPrim;
    match t
    case NotOf(n) => NotMeans(w, n, row);
    case Atom(p) => PrimMeans(w, p, row);
  }

  lemma {:induction false} PrimMeans(w: World, p: PrimTree, row: Row)
    requires IsPrim(p) && LexedPrim(p)
    ensures EvalMatch(w, PrimValue(p), row) == PrimTest(w, p, row)
    decreases p
  {
    hide EvalMatch, PrimValue, OrTest, CompareTest, PatternsAnswer, SubAnswer, HoldsNothing, PathsOf, ListAnswer;
    hide IsPath, LexedPath, IsLhs, LexedLhs, FieldAt;
    PrimValues(w, p, row);
    PathsOfPrim(p);
    match p
    case Paren(e) => OrMeans(w, e, row);
    case Compare(field, op, lit) => CompareAnswers(w, field, op, lit, row);
    case Patterns(field, ps) => PatternsAnswers(w, field, ps, row);
    case NullTest(field, negate) => NullAnswers(w, field, negate, row);
    case Implicit(_, _) =>
    case MemberOfList(lhs, lits) => ListAnswers(w, lhs, lits, row);
    case MemberOfQuery(lhs, sub) => QueryAnswers(w, lhs, sub, row);
  }

  lemma PathsOfPrim(p: PrimTree)
    requires IsPrim(p)
    ensures p.Compare? || p.Patterns? || p.NullTest? ==> IsPath(p.field)
    ensures p.MemberOfList? || p.MemberOfQuery? ==> IsLhs(p.lhs)
  {
  }

  // ----- what the clauses of a query say -----

  /** The segments of the column, or function argument, are those written. */
  predicate WritesPath(f: Grammar.Path, name: string) {
    SplitDots(name) == f
  }

  predicate WritesArg(t: ArgTree, a: FuncArg) {
    match t
    case StringArg(text) => a == FuncArg(text, true)
    case FieldArg(field) => WritesPath(field, a.text) && !a.str
  }

  predicate Writes(t: ItemTree, it: ProjItem) {
    match t
    case FieldItem(field) => it.Field? && WritesPath(field, it.field)
    case CallItem(name, args) =>
      && it.Call? && it.func.name == name && |it.func.args| == |args|
      && forall i :: 0 <= i < |args| ==> WritesArg(args[i], it.func.args[i])
  }

  predicate WriteItems(ts: seq<ItemTree>, items: seq<ProjItem>) {
    |ts| == |items| && forall i :: 0 <= i < |ts| ==> Writes(ts[i], items[i])
  }

  /** The directions are those of the words: descending with `desc`, and otherwise not. */
  predicate WriteTerms(ts: seq<TermTree>, terms: seq<OrderTerm>) {
    |ts| == |terms| && forall i :: 0 <= i < |ts| ==>
      WritesPath(ts[i].field, terms[i].field) && (terms[i].desc <==> ts[i].direction == DescWord)
  }

  lemma ItemIsWritten(t: ItemTree)
    requires IsItem(t) && LexedItem(t)
    ensures Writes(t, ItemValue(t))
  {
    match t
    case FieldItem(field) => PathIsText(field);
    case CallItem(_, args) =>
      forall i | 0 <= i < |args|
        ensures WritesArg(args[i], ArgValue(args[i]))
      {
        assert IsArg(args[i]) && LexedArg(args[i]);
        if args[i].FieldArg? {
          PathIsText(args[i].field);
        }
      }
  }

  lemma ItemsAreWritten(ts: seq<ItemTree>)
    requires AllOf(IsItem, ts) && AllOf(LexedItem, ts)
    ensures WriteItems(ts, Map(ItemValue, ts))
  {
    hide Writes, ItemValue, IsItem, LexedItem;
    forall i | 0 <= i < |ts| {
      ItemIsWritten(ts[i]);
    }
  }

  lemma TermsAreWritten(ts: seq<TermTree>)
    requires AllOf(IsTerm, ts) && AllOf(LexedTerm, ts)
    ensures WriteTerms(ts, Map(TermValue, ts))
  {
    forall i | 0 <= i < |ts|
      ensures WritesPath(ts[i].field, TermValue(ts[i]).field)
    {
      assert IsTerm(ts[i]) && LexedTerm(ts[i]);
      PathIsText(ts[i].field);
    }
  }

  /** The query without its clauses. */
  function BareQuery(t: QueryTree): Query {
    EmptyQuery(EntityValue(t.name)).(projection := ProjectionValue(t.projection), filter := BodyValue(t.filter))
  }

  lemma JoinedClauses(t: QueryTree)
    requires IsQuery(t) && LexedQuery(t)
    ensures GoodClauses(t.inner + t.outer)
    ensures QueryValue(t) == ApplyClauses(BareQuery(t), t.inner + t.outer)
  {
    hide IsClause, LexedClause, ApplyClauses;
    ApplyClausesAppend(BareQuery(t), t.inner, t.outer);
  }

  lemma GroupIsWritten(cs: seq<Clause>)
    requires GoodClauses(cs)
    ensures if LastGroupBy(cs) == [] then GroupValue(cs, []) == []
            else LastGroupBy(cs)[0].GroupBy? && WriteItems(LastGroupBy(cs)[0].items, GroupValue(cs, []))
  {
    LastKinds(cs);
    if LastGroupBy(cs) != [] {
      var c := LastGroupBy(cs)[0];
      assert IsClause(c) && LexedClause(c);
      ItemsAreWritten(c.items);
    }
  }

  /** A query sets the entity it names, the columns it lists, the last group-by, all order-by
      terms with their directions, the last limit and the last offset, inside the braces or behind
      them. */
  lemma TextSays(t: QueryTree)
    requires IsQuery(t) && LexedQuery(t)
    ensures var q, cs := QueryValue(t), t.inner + t.outer;
            && q.entity == PlainName(t.name)
            && WriteItems((match t.projection case None => [] case Some(items) => items), q.projection)
            && (if LastGroupBy(cs) == [] then q.groupBy == []
                else LastGroupBy(cs)[0].GroupBy? && WriteItems(LastGroupBy(cs)[0].items, q.groupBy))
            && WriteTerms(AllTerms(cs), q.orderBy)
            && LastLimit(cs) == (match q.limit case None => [] case Some(n) => [Limit(Itoa(n))])
            && LastOffset(cs) == (match q.offset case None => [] case Some(n) => [Offset(Itoa(n))])
  {
    hide AllTerms, LastGroupBy, LastLimit, LastOffset, ApplyClauses, ItemValue, TermValue, NonNegInt, Itoa;
    hide Writes, WriteTerms, GroupValue, LimitValue, OffsetValue;
    var cs := t.inner + t.outer;
    JoinedClauses(t);
    ClausesTakeEffect(BareQuery(t), cs);
    GroupIsWritten(cs);
    AllTermsAreGood(cs);
    TermsAreWritten(AllTerms(cs));
    NumbersArePlain(cs);
    NameIsPlain(t.name);
    if t.projection.Some? {
      ItemsAreWritten(t.projection.value);
    }
    assert [] + Map(TermValue, AllTerms(cs)) == Map(TermValue, AllTerms(cs));
  }

  /** And it selects the rows on which the interpreter's test of its filter holds. */
  lemma FilterSays(w: World, t: QueryTree, row: Row)
    requires IsQuery(t) && LexedQuery(t)
    ensures MatchFilter(w, QueryValue(t).filter, row) ==
            if t.filter.None? then Ok(true) else OrTest(w, t.filter.value, row)
  {
    hide OrTest, OrValue, EvalMatch, ApplyClauses;
    JoinedClauses(t);
    ClausesTakeEffect(BareQuery(t), t.inner + t.outer);
    if t.filter.Some? {
      OrMeans(w, t.filter.value, row);
    }
  }
}
