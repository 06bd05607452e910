/** What a value means to a test or an ordering, said without the program's comparisons: the
    number or the string it holds, and the literal that is spelled like it. */
module Meanings {
  import opened Wrappers
  import opened Numbers
  import opened Ast
  import opened Values

  /** An integer and a float that hold one number mean the same. */
  function NumberOf(v: Value): Option<Num> {
    match v
    case Int(n) => Some(Fin(n as real))
    case Float(x) => Some(x)
    case _ => None
  }

  predicate NumberBefore(x: Num, y: Num) {
    || (x.NegInf? && (y.Fin? || y.PosInf?))
    || (x.Fin? && y.PosInf?)
    || (x.Fin? && y.Fin? && x.value < y.value)
  }

  /** In ascending order a comes before b: nil before everything else, numbers by size, strings
      bytewise. No other two values have an order. */
  predicate Before(a: Value, b: Value) {
    || (a.Null? && !b.Null?)
    || (NumberOf(a).Some? && NumberOf(b).Some? && NumberBefore(NumberOf(a).value, NumberOf(b).value))
    || (a.Str? && b.Str? && StringLess(a.s, b.s))
  }

  lemma BeforeIsLess(a: Value, b: Value)
    ensures Before(a, b) <==> CompareAny(a, b) < 0
  {
    if a.Str? && b.Str? {
      StringLessIsStrict(a.s, b.s);
    }
  }

  lemma BeforeIsOrdered(a: Value, b: Value)
    requires !a.Null? && !b.Null?
    ensures OrderedCompare(a, b).Some? ==>
      && (OrderedCompare(a, b).value < 0 <==> Before(a, b))
      && (OrderedCompare(a, b).value > 0 <==> Before(b, a))
    ensures OrderedCompare(a, b).Some? <==>
            (NumberOf(a).Some? && NumberOf(b).Some?) || (a.Str? && b.Str?)
  {
    if a.Str? && b.Str? {
      StringLessIsStrict(a.s, b.s);
    }
  }

  /** The literal a scalar is spelled as. */
  function LiteralOf(v: Value): Literal
    requires IsScalar(v)
  {
    match v
    case Null => LitNull
    case Bool(b) => LitBool(b)
    case Str(s) => LitString(s)
    case Int(n) => LitNumber(Fin(n as real))
    case Float(x) => LitNumber(x)
  }

  /** Two scalars of one spelling, which NaN does not share even with itself. */
  predicate SameMeaning(a: Value, b: Value) {
    IsScalar(a) && IsScalar(b) && LiteralOf(a) == LiteralOf(b) && LiteralOf(a) != LitNumber(NaN)
  }

  lemma SameMeaningIsEqual(a: Value, b: Value)
    ensures ValueEqual(a, b) <==> SameMeaning(a, b)
  {
  }
}
