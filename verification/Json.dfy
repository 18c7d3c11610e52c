/** JSON values and Python's equality on them. Floating-point numbers are reals. */
module Json {
  import opened PyText

  datatype Json =
    | Null
    | Bool(b: bool)
    | Int(n: int)
    | Float(x: real)
    | Str(s: string)
    | Arr(items: seq<Json>)
    | Obj(fields: map<string, Json>)

  /** The numeric value: `True == 1 == 1.0`. */
  function Number(j: Json): Option<real> {
    match j
    case Bool(b) => Some(if b then 1.0 else 0.0)
    case Int(n) => Some(n as real)
    case Float(x) => Some(x)
    case _ => None
  }

  /** `a == b`. */
  predicate PyEq(a: Json, b: Json)
    decreases a
  {
    match a
    case Null => b.Null?
    case Str(s) => b.Str? && b.s == s
    case Arr(items) =>
      b.Arr? && |b.items| == |items| && forall i | 0 <= i < |items| :: PyEq(items[i], b.items[i])
    case Obj(fields) =>
      b.Obj? && b.fields.Keys == fields.Keys && forall k | k in fields :: PyEq(fields[k], b.fields[k])
    case _ => Number(b) == Number(a)
  }

  lemma {:induction false} PyEqReflexive(a: Json)
    ensures PyEq(a, a)
    decreases a
  {
    match a
    case Arr(items) =>
      forall i | 0 <= i < |items| { PyEqReflexive(items[i]); }
    case Obj(fields) =>
      forall k | k in fields { PyEqReflexive(fields[k]); }
    case _ =>
  }

  lemma {:induction false} PyEqSymmetric(a: Json, b: Json)
    requires PyEq(a, b)
    ensures PyEq(b, a)
    decreases a
  {
    match a
    case Arr(items) =>
      forall i | 0 <= i < |items| { PyEqSymmetric(items[i], b.items[i]); }
    case Obj(fields) =>
      forall k | k in fields { PyEqSymmetric(fields[k], b.fields[k]); }
    case _ =>
  }

  lemma {:induction false} PyEqTransitive(a: Json, b: Json, c: Json)
    requires PyEq(a, b) && PyEq(b, c)
    ensures PyEq(a, c)
    decreases a
  {
    match a
    case Arr(items) =>
      forall i | 0 <= i < |items| { PyEqTransitive(items[i], b.items[i], c.items[i]); }
    case Obj(fields) =>
      forall k | k in fields { PyEqTransitive(fields[k], b.fields[k], c.fields[k]); }
    case _ =>
  }
}
