/** Row values and their comparisons (values.go). */
module Values {
  import opened Wrappers
  import opened Numbers
  import opened Ast

  /** JSON values as rows hold them. Int is a Go int: a row has one where the program put it,
      in a count or in a fact path; decoded JSON has only Float. NilMap is a Go map that was
      never made, the facts of a command without values or the parameters of a resource
      without any: it is read like an empty map and is not nil. */
  datatype Value =
    | Null
    | Bool(b: bool)
    | Int(n: int)
    | Float(x: Num)
    | Str(s: string)
    | Arr(items: seq<Value>)
    | Obj(fields: map<string, Value>)
    | NilMap

  predicate IsScalar(v: Value) {
    !v.Arr? && !v.Obj? && !v.NilMap?
  }

  type Row = map<string, Value>

  /** A missing column reads as nil. */
  function Column(row: Row, name: string): Value {
    if name in row then row[name] else Null
  }

  /** Literal.asAny */
  function AsAny(l: Literal): Value {
    match l
    case LitString(s) => Str(s)
    case LitNumber(x) => Float(x)
    case LitBool(b) => Bool(b)
    case LitNull => Null
  }

  function ToFloat(v: Value): Option<Num> {
    match v
    case Float(x) => Some(x)
    case Int(n) => Some(Fin(n as real))
    case _ => None
  }

  function ValueEqual(a: Value, b: Value): bool {
    if a.Null? || b.Null? then a.Null? && b.Null?
    else if ToFloat(a).Some? then ToFloat(b).Some? && Equal(ToFloat(a).value, ToFloat(b).value)
    else
      match a
      case Str(s) => b == Str(s)
      case Bool(x) => b == Bool(x)
      case _ => false
  }

  /** Go's < on strings: bytewise. */
  predicate StringLess(a: string, b: string) {
    if b == "" then false
    else if a == "" then true
    else a[0] < b[0] || (a[0] == b[0] && StringLess(a[1..], b[1..]))
  }

  /** None when the pair is not comparable. */
  function OrderedCompare(a: Value, b: Value): (c: Option<int>)
    ensures c.Some? ==> -1 <= c.value <= 1
  {
    if ToFloat(a).Some? then
      if ToFloat(b).None? then None
      else if Less(ToFloat(a).value, ToFloat(b).value) then Some(-1)
      else if Less(ToFloat(b).value, ToFloat(a).value) then Some(1)
      else Some(0)
    else if a.Str? && b.Str? then
      if StringLess(a.s, b.s) then Some(-1)
      else if StringLess(b.s, a.s) then Some(1)
      else Some(0)
    else None
  }

  /** Nil first; pairs that do not compare count as equal. */
  function CompareAny(a: Value, b: Value): (c: int)
    ensures -1 <= c <= 1
  {
    if a.Null? && b.Null? then 0
    else if a.Null? then -1
    else if b.Null? then 1
    else if OrderedCompare(a, b).Some? then OrderedCompare(a, b).value
    else 0
  }

  // ----- the string order -----

  lemma {:induction false} StringLessIsStrict(a: string, b: string)
    ensures !(StringLess(a, b) && StringLess(b, a))
    ensures StringLess(a, b) || StringLess(b, a) || a == b
    ensures a == b ==> !StringLess(a, b)
  {
    if a != "" && b != "" && a[0] == b[0] {
      StringLessIsStrict(a[1..], b[1..]);
      assert a == [a[0]] + a[1..] && b == [b[0]] + b[1..];
    }
  }

  lemma {:induction false} StringLessTransitive(a: string, b: string, c: string)
    requires StringLess(a, b) && StringLess(b, c)
    ensures StringLess(a, c)
  {
    if a != "" && a[0] == b[0] == c[0] {
      StringLessTransitive(a[1..], b[1..], c[1..]);
    }
  }

  // ----- when CompareAny orders a column -----

  /** Both values are numbers that compare, or both are strings. */
  predicate SameKind(a: Value, b: Value) {
    || (a.Str? && b.Str?)
    || (IsOrderedNumber(a) && IsOrderedNumber(b))
  }

  predicate IsOrderedNumber(v: Value) {
    ToFloat(v).Some? && !ToFloat(v).value.NaN?
  }

  lemma CompareIsAntisymmetric(a: Value, b: Value)
    ensures CompareAny(a, b) == -CompareAny(b, a)
  {
    if a.Str? && b.Str? {
      StringLessIsStrict(a.s, b.s);
    }
  }

  lemma UnequalIsSameKind(a: Value, b: Value)
    requires !a.Null? && !b.Null?
    ensures CompareAny(a, b) != 0 ==> SameKind(a, b)
  {
  }

  lemma CompareSameKind(a: Value, b: Value, c: Value)
    requires SameKind(a, b) && SameKind(b, c)
    ensures CompareAny(a, b) <= 0 && CompareAny(b, c) <= 0 ==> CompareAny(a, c) <= 0
  {
    if a.Str? {
      StringLessIsStrict(a.s, b.s);
      StringLessIsStrict(b.s, c.s);
      StringLessIsStrict(a.s, c.s);
      if StringLess(a.s, b.s) && StringLess(b.s, c.s) {
        StringLessTransitive(a.s, b.s, c.s);
      }
    }
  }
}
