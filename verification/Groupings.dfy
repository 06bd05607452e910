/** The printer groups no more than it must: no text of a query has fewer parentheses and
    field lists. */
module Groupings {
  import opened Wrappers
  import opened Ast
  import opened Grammar
  import opened Printer
  import opened PrinterProofs

  // ----- the groupings of a tree: parentheses around expressions, brackets around fields -----

  function GroupsOr(t: OrTree): nat {
    match t
    case OrOne(a) => GroupsAnd(a)
    case OrMore(init, last) => GroupsOr(init) + GroupsAnd(last)
  }

  function GroupsAnd(t: AndTree): nat {
    match t
    case AndOne(n) => GroupsNot(n)
    case AndMore(init, last) => GroupsAnd(init) + GroupsNot(last)
  }

  function GroupsNot(t: NotTree): nat {
    match t
    case NotOf(n) => GroupsNot(n)
    case Atom(p) => GroupsPrim(p)
  }

  function GroupsPrim(p: PrimTree): nat {
    match p
    case Paren(e) => 1 + GroupsOr(e)
    case Implicit(_, body) => GroupsBody(body)
    case MemberOfList(lhs, _) => GroupsLhs(lhs)
    case MemberOfQuery(lhs, sub) => GroupsLhs(lhs) + GroupsQuery(sub)
    case _ => 0
  }

  function GroupsLhs(lhs: LhsTree): nat {
    if lhs.Listed? then 1 else 0
  }

  function GroupsBody(body: Option<OrTree>): nat {
    match body
    case None => 0
    case Some(e) => GroupsOr(e)
  }

  function GroupsQuery(q: QueryTree): nat {
    GroupsBody(q.filter)
  }

  // ----- trees that begin with a grouping -----

  predicate OpensOr(t: OrTree) {
    match t
    case OrOne(a) => OpensAnd(a)
    case OrMore(init, _) => OpensOr(init)
  }

  predicate OpensAnd(t: AndTree) {
    match t
    case AndOne(n) => OpensNot(n)
    case AndMore(init, _) => OpensAnd(init)
  }

  predicate OpensNot(t: NotTree) {
    match t
    case NotOf(_) => false
    case Atom(Paren(_)) => true
    case Atom(MemberOfList(lhs, _)) => lhs.Listed?
    case Atom(MemberOfQuery(lhs, _)) => lhs.Listed?
    case Atom(_) => false
  }

  lemma {:induction false} OpenedHasNoLead(t: OrTree)
    requires OpensOr(t)
    ensures LeadOr(t) == None
    decreases t
  {
    match t
    case OrOne(a) =>
      OpenedAndHasNoLead(a);
    case OrMore(init, _) =>
      OpenedHasNoLead(init);
  }

  lemma {:induction false} OpenedAndHasNoLead(t: AndTree)
    requires OpensAnd(t)
    ensures LeadAnd(t) == None
    decreases t
  {
    if t.AndMore? {
      OpenedAndHasNoLead(t.init);
    }
  }

  // ----- no tree of an expression has fewer groupings than the printed one -----

  /** A tree that begins with a grouping where the printed one does not has one to spare. */
  function Spare(opens: bool, printedOpens: bool): nat {
    if opens && !printedOpens then 1 else 0
  }

  ghost predicate OrMinimal(t: OrTree) {
    && ExpressibleExpr(OrValue(t))
    && var p := PrintOr(OrValue(t));
    && GroupsOr(t) >= GroupsOr(p) + Spare(OpensOr(t), OpensOr(p))
    && (!OpensOr(t) && !OpensOr(p) ==> LeadOr(t) == LeadOr(p))
  }

  ghost predicate AndMinimal(t: AndTree) {
    && ExpressibleExpr(AndValue(t))
    && var p := PrintAnd(AndValue(t));
    && GroupsAnd(t) >= GroupsAnd(p) + Spare(OpensAnd(t), OpensAnd(p))
    && (!OpensAnd(t) && !OpensAnd(p) ==> LeadAnd(t) == LeadAnd(p))
  }

  ghost predicate NotMinimal(t: NotTree) {
    && ExpressibleExpr(NotValue(t))
    && var p := PrintNot(NotValue(t));
    && GroupsNot(t) >= GroupsNot(p) + Spare(OpensNot(t), OpensNot(p))
    && (!OpensNot(t) && !OpensNot(p) ==> LeadNot(t) == LeadNot(p))
  }

  predicate IsJoined(op: LogOp, e: Expr) {
    e.Logical? && e.logOp == op
  }

  /** Printing one level tighter adds parentheses exactly where the operator is looser. */
  lemma Levels(e: Expr)
    requires ExpressibleExpr(e)
    ensures IsJoined(Or, e) ==> PrintAnd(e) == AndOne(Atom(Paren(PrintOr(e))))
    ensures !IsJoined(Or, e) ==> PrintOr(e) == OrOne(PrintAnd(e))
    ensures IsJoined(And, e) ==> PrintNot(e) == Atom(Paren(PrintOr(e)))
    ensures !IsJoined(And, e) ==> PrintAnd(e) == AndOne(PrintNot(e))
  {
    if e.Logical? {
      assert PrintNot(e) == Atom(PrintPrim(e));
      if e.logOp == Or {
        assert PrintPrim(e) == Paren(OrMore(PrintOr(e.left), PrintAnd(e.right)));
      } else {
        assert PrintPrim(e) == Paren(OrOne(AndMore(PrintAnd(e.left), PrintNot(e.right))));
      }
    }
  }

  lemma WrappedOr(a: AndTree)
    ensures GroupsOr(OrOne(a)) == GroupsAnd(a) && OpensOr(OrOne(a)) == OpensAnd(a) && LeadOr(OrOne(a)) == LeadAnd(a)
  {
  }

  lemma WrappedAnd(n: NotTree)
    ensures GroupsAnd(AndOne(n)) == GroupsNot(n) && OpensAnd(AndOne(n)) == OpensNot(n) && LeadAnd(AndOne(n)) == LeadNot(n)
  {
  }

  lemma Grouped(e: OrTree)
    ensures var n := Atom(Paren(e));
            && GroupsNot(n) == GroupsAnd(AndOne(n)) == GroupsOr(OrOne(AndOne(n))) == 1 + GroupsOr(e)
            && OpensNot(n) && OpensAnd(AndOne(n)) && OpensOr(OrOne(AndOne(n)))
  {
    var n := Atom(Paren(e));
    assert GroupsNot(n) == GroupsPrim(Paren(e));
    WrappedAnd(n);
    WrappedOr(AndOne(n));
  }

  lemma {:induction false} OrIsMinimal(t: OrTree)
    requires IsOr(t) && LexedOr(t)
    ensures OrMinimal(t)
    decreases t
  {
    OrIsExpressible(t);
    match t
    case OrOne(a) =>
      AndIsMinimal(a);
      OrOneIsMinimal(a);
    case OrMore(init, last) =>
      OrIsMinimal(init);
      AndIsMinimal(last);
  }

  lemma OrOneIsMinimal(a: AndTree)
    requires AndMinimal(a)
    ensures OrMinimal(OrOne(a))
  {
    hide PrintOr, PrintAnd, GroupsOr, GroupsAnd, OpensOr, OpensAnd, LeadOr, LeadAnd, ExpressibleExpr;
    var v := AndValue(a);
    assert OrValue(OrOne(a)) == v;
    WrappedOr(a);
    Levels(v);
    if IsJoined(Or, v) {
      LoosestIsGrouped(a);
      Grouped(PrintOr(v));
    } else {
      WrappedOr(PrintAnd(v));
    }
  }

  lemma AndOneIsMinimal(n: NotTree)
    requires NotMinimal(n)
    ensures AndMinimal(AndOne(n))
  {
    hide PrintOr, PrintAnd, PrintNot, GroupsOr, GroupsAnd, GroupsNot, OpensAnd, OpensNot, LeadAnd, LeadNot, ExpressibleExpr;
    var v := NotValue(n);
    assert AndValue(AndOne(n)) == v;
    WrappedAnd(n);
    Levels(v);
    if IsJoined(And, v) {
      LooserIsGrouped(n);
      Grouped(PrintOr(v));
      WrappedOr(PrintAnd(v));
    } else {
      WrappedAnd(PrintNot(v));
    }
  }

  lemma LooserIsGrouped(t: NotTree)
    requires NotValue(t).Logical?
    ensures OpensNot(t)
  {
  }

  /** An `or` inside a tighter operator stands in parentheses. */
  lemma LoosestIsGrouped(t: AndTree)
    requires IsJoined(Or, AndValue(t))
    ensures OpensAnd(t)
  {
    if t.AndOne? {
      LooserIsGrouped(t.first);
    }
  }

  lemma {:induction false} AndIsMinimal(t: AndTree)
    requires IsAnd(t) && LexedAnd(t)
    ensures AndMinimal(t)
    decreases t
  {
    AndIsExpressible(t);
    match t
    case AndOne(n) =>
      NotIsMinimal(n);
      AndOneIsMinimal(n);
    case AndMore(init, last) =>
      AndIsMinimal(init);
      NotIsMinimal(last);
  }

  lemma {:induction false} NotIsMinimal(t: NotTree)
    requires IsNot(t) && LexedNot(t)
    ensures NotMinimal(t)
    decreases t
  {
    hide PrintOr, PrintAnd, GroupsOr, GroupsAnd, OpensOr, OpensAnd, LeadOr, LeadAnd, ExpressibleExpr;
    hide IsOr, IsQuery, IsLhs, LexedOr, LexedQuery, LexedLhs, OrMinimal, NotMinimal;
    NotIsExpressible(t);
    match t
    case NotOf(n) =>
      NotIsMinimal(n);
      NegationIsMinimal(n);
    case Atom(Paren(e)) =>
      OrIsMinimal(e);
      ParenIsMinimal(e);
    case Atom(Implicit(name, body)) =>
      if body.Some? {
        OrIsMinimal(body.value);
      }
      ImplicitIsMinimal(name, body);
    case Atom(MemberOfList(lhs, lits)) =>
      ListIsMinimal(lhs, lits);
    case Atom(MemberOfQuery(lhs, sub)) =>
      QueryIsMinimal(sub);
      SubqueryIsMinimal(lhs, sub);
    case Atom(p) =>
      TestIsMinimal(p);
  }

  lemma NegationIsMinimal(n: NotTree)
    requires NotMinimal(n)
    ensures NotMinimal(NotOf(n))
  {
  }

  lemma ParenIsMinimal(e: OrTree)
    requires OrMinimal(e)
    ensures NotMinimal(Atom(Paren(e)))
  {
    hide PrintOr, PrintAnd, PrintNot, GroupsOr, GroupsAnd, GroupsNot, OpensOr, OpensAnd, OpensNot, ExpressibleExpr;
    var v := OrValue(e);
    assert NotValue(Atom(Paren(e))) == v;
    Levels(v);
    Grouped(e);
    if IsJoined(And, v) {
      Grouped(PrintOr(v));
    } else if IsJoined(Or, v) {
      Grouped(PrintOr(v));
      WrappedAnd(PrintNot(v));
    } else {
      WrappedAnd(PrintNot(v));
      WrappedOr(PrintAnd(v));
    }
  }

  lemma ImplicitGroups(name: string, body: Option<OrTree>)
    ensures GroupsNot(Atom(Implicit(name, body))) == if body.None? then 0 else GroupsOr(body.value)
  {
    assert GroupsPrim(Implicit(name, body)) == GroupsBody(body);
  }

  lemma ImplicitIsMinimal(name: string, body: Option<OrTree>)
    requires ExpressibleExpr(NotValue(Atom(Implicit(name, body))))
    requires body.Some? ==> OrMinimal(body.value)
    ensures NotMinimal(Atom(Implicit(name, body)))
  {
    var e := NotValue(Atom(Implicit(name, body)));
    var entity := EntityValue(name);
    assert e == Subquery(entity, BodyValue(body));
    if body.Some? {
      assert PrintNot(e) == Atom(Implicit(entity, Some(PrintOr(OrValue(body.value)))));
    } else {
      assert PrintNot(e) == Atom(Implicit(entity, None));
    }
    ImplicitGroups(name, body);
    ImplicitGroups(entity, PrintNot(e).p.body);
  }

  lemma TestIsMinimal(p: PrimTree)
    requires p.Compare? || p.Patterns? || p.NullTest?
    requires IsPrim(p) && LexedPrim(p)
    ensures NotMinimal(Atom(p))
  {
    PrimIsExpressible(p);
    PathIsText(p.field);
  }

  /** Printed fields are listed only where they must be, and lead with the same word. */
  lemma LhsIsMinimal(lhs: LhsTree)
    requires IsLhs(lhs) && LexedLhs(lhs)
    ensures PrintLhs(LhsValue(lhs)).Listed? ==> lhs.Listed?
    ensures lhs.Bare? ==> PrintLhs(LhsValue(lhs)) == lhs
  {
    if lhs.Bare? {
      PathIsText(lhs.field);
    }
  }

  lemma ListIsMinimal(lhs: LhsTree, lits: seq<LitTree>)
    requires IsLhs(lhs) && LexedLhs(lhs) && ExpressibleExpr(PrimValue(MemberOfList(lhs, lits)))
    ensures NotMinimal(Atom(MemberOfList(lhs, lits)))
  {
    LhsIsMinimal(lhs);
  }

  lemma SubqueryIsMinimal(lhs: LhsTree, sub: QueryTree)
    requires IsLhs(lhs) && LexedLhs(lhs) && ExpressibleExpr(PrimValue(MemberOfQuery(lhs, sub)))
    requires GroupsQuery(sub) >= GroupsQuery(PrintQuery(QueryValue(sub)))
    ensures NotMinimal(Atom(MemberOfQuery(lhs, sub)))
  {
    LhsIsMinimal(lhs);
  }

  // ----- nor of a query -----

  lemma {:induction false} ClausesKeepFilter(q: Query, cs: seq<Clause>)
    ensures ApplyClauses(q, cs).filter == q.filter
    decreases |cs|
  {
    if cs != [] {
      ClausesKeepFilter(ApplyClause(q, cs[0]), cs[1..]);
    }
  }

  lemma FilterValue(q: QueryTree)
    ensures QueryValue(q).filter == BodyValue(q.filter)
  {
    var q0 := EmptyQuery(EntityValue(q.name)).(
      projection := ProjectionValue(q.projection), filter := BodyValue(q.filter));
    ClausesKeepFilter(q0, q.inner);
    ClausesKeepFilter(ApplyClauses(q0, q.inner), q.outer);
  }

  /** The parentheses around a filter that would be taken for a clause cannot be saved. */
  lemma ShieldIsNeeded(t: OrTree)
    requires OrMinimal(t) && !LeadsWithClauseWord(t)
    ensures GroupsOr(t) >= GroupsOr(Shield(PrintOr(OrValue(t))))
  {
    var p := PrintOr(OrValue(t));
    if OpensOr(p) {
      OpenedHasNoLead(p);
    }
    Grouped(p);
  }

  /** Whatever text a query was read from, the printed one has no more parentheses and field
      lists. */
  lemma {:induction false} QueryIsMinimal(t: QueryTree)
    requires IsQuery(t) && LexedQuery(t)
    ensures Expressible(QueryValue(t))
    ensures GroupsQuery(t) >= GroupsQuery(PrintQuery(QueryValue(t)))
    decreases t
  {
    QueryIsExpressible(t);
    FilterValue(t);
    if t.filter.Some? {
      OrIsMinimal(t.filter.value);
      ShieldIsNeeded(t.filter.value);
    }
  }
}
