/** JSON trees as encoding/json sees them: the values handed to the encoder, in which Go
    integers and float64 numbers are distinct, and the values the decoder returns, in which
    every number is a float64. */
module Json {
  import opened Numbers
  import opened Utf8

  datatype Json =
    | JNull
    | JBool(b: bool)
    | JInt(n: nat)
    | JNum(x: Num)
    | JStr(s: string)
    | JArr(items: seq<Json>)
    | JObj(fields: map<string, Json>)

  /** The encoder has a text for j: section 6 of RFC 8259 has none for infinities and NaN. */
  predicate Encodable(j: Json) {
    match j
    case JNum(x) => x.Fin?
    case JArr(items) => forall i :: 0 <= i < |items| ==> Encodable(items[i])
    case JObj(fields) => forall k :: k in fields ==> Encodable(fields[k])
    case _ => true
  }

  /** What the decoder returns for the encoder's text of j: bytes that are not UTF-8 come
      back as U+FFFD and integers as float64. */
  function Decoded(j: Json): Json {
    Floated(FloatOf, Cleaned(j))
  }

  /** Every string with its invalid bytes replaced. The keys of objects are left alone: the
      compiler makes no objects. */
  function Cleaned(j: Json): Json {
    match j
    case JStr(s) => JStr(Sanitized(s))
    case JArr(items) => JArr(seq(|items|, i requires 0 <= i < |items| => Cleaned(items[i])))
    case JObj(fields) => JObj(map k | k in fields :: Cleaned(fields[k]))
    case _ => j
  }

  function Floated(conv: nat -> nat, j: Json): Json {
    match j
    case JInt(n) => JNum(Fin(conv(n) as real))
    case JArr(items) => JArr(seq(|items|, i requires 0 <= i < |items| => Floated(conv, items[i])))
    case JObj(fields) => JObj(map k | k in fields :: Floated(conv, fields[k]))
    case _ => j
  }

  /** How many arrays and objects deep the decoder goes. */
  const MAX_NESTING: nat := 10_000

  /** No more than n arrays and objects of j lie inside each other. */
  predicate Shallow(j: Json, n: nat)
    decreases j
  {
    match j
    case JArr(items) => n > 0 && forall i | 0 <= i < |items| :: Shallow(items[i], n - 1)
    case JObj(fields) => n > 0 && forall k | k in fields :: Shallow(fields[k], n - 1)
    case _ => true
  }

  /** A tree the decoder can return. */
  predicate IsDocument(j: Json) {
    IsDecoded(j) && Shallow(j, MAX_NESTING)
  }

  /** All strings of a tree are valid UTF-8, all its numbers finite float64 values. */
  predicate IsDecoded(j: Json) {
    match j
    case JInt(_) => false
    case JNum(x) => x.Fin? && IsFloat64(x.value)
    case JStr(s) => ValidUtf8(s)
    case JArr(items) => forall i :: 0 <= i < |items| ==> IsDecoded(items[i])
    case JObj(fields) => forall k :: k in fields ==> IsDecoded(fields[k])
    case _ => true
  }

  /** Which integers are float64 values; other reals are not restricted, since their
      rounding never decides a result. */
  predicate IsFloat64(x: real) {
    x >= 0.0 && x.Floor as real == x ==> Exact(x.Floor)
  }

  // Unfoldings of arrays of a known length, for the proofs about the compiler.

  lemma Arrays1(conv: nat -> nat, a: Json)
    ensures Encodable(JArr([a])) <==> Encodable(a)
    ensures Floated(conv, JArr([a])) == JArr([Floated(conv, a)])
  {
    assert Encodable(JArr([a])) <==> Encodable([a][0]);
  }

  lemma Arrays2(conv: nat -> nat, a: Json, b: Json)
    ensures Encodable(JArr([a, b])) <==> Encodable(a) && Encodable(b)
    ensures Floated(conv, JArr([a, b])) == JArr([Floated(conv, a), Floated(conv, b)])
  {
    assert Encodable(JArr([a, b])) <==> Encodable([a, b][0]) && Encodable([a, b][1]);
  }

  lemma Arrays3(conv: nat -> nat, a: Json, b: Json, c: Json)
    ensures Encodable(JArr([a, b, c])) <==> Encodable(a) && Encodable(b) && Encodable(c)
    ensures Floated(conv, JArr([a, b, c])) == JArr([Floated(conv, a), Floated(conv, b), Floated(conv, c)])
  {
    assert Encodable(JArr([a, b, c])) <==>
      Encodable([a, b, c][0]) && Encodable([a, b, c][1]) && Encodable([a, b, c][2]);
  }

  lemma ArraysAppend(conv: nat -> nat, xs: seq<Json>, ys: seq<Json>)
    ensures Encodable(JArr(xs + ys)) <==> Encodable(JArr(xs)) && Encodable(JArr(ys))
    ensures Floated(conv, JArr(xs + ys)).items == Floated(conv, JArr(xs)).items + Floated(conv, JArr(ys)).items
  {
    if Encodable(JArr(xs + ys)) {
      assert forall i :: 0 <= i < |xs| ==> xs[i] == (xs + ys)[i];
      assert forall i :: 0 <= i < |ys| ==> ys[i] == (xs + ys)[|xs| + i];
    }
  }
}
