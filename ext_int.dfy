/**
 * Integers extended with Python's `float('-inf')` and `float('inf')`
 * (also written `math.inf`).  The search code compares integer
 * utilities against these two sentinels; the model keeps them as a
 * datatype so that all arithmetic stays exact.
 */
module ExtInts {
  datatype ExtInt = NegInf | Fin(value: int) | PosInf

  /** `a <= b` in Python, for ints and the two infinities. */
  predicate Le(a: ExtInt, b: ExtInt) {
    match (a, b)
    case (NegInf, _) => true
    case (_, PosInf) => true
    case (Fin(x), Fin(y)) => x <= y
    case _ => false
  }

  /** `a < b` in Python. */
  predicate Lt(a: ExtInt, b: ExtInt) {
    Le(a, b) && a != b
  }

  /** Python's `max(a, b)`: the first argument unless the second is strictly larger. */
  function Max(a: ExtInt, b: ExtInt): (r: ExtInt)
    ensures Le(a, r) && Le(b, r)
    ensures r == a || r == b
  {
    if Lt(a, b) then b else a
  }

  /** Python's `min(a, b)`: the first argument unless the second is strictly smaller. */
  function Min(a: ExtInt, b: ExtInt): (r: ExtInt)
    ensures Le(r, a) && Le(r, b)
    ensures r == a || r == b
  {
    if Lt(b, a) then b else a
  }

  /** Addition of two values that are never `-inf`; `inf` absorbs. */
  function Add(a: ExtInt, b: ExtInt): (r: ExtInt)
    requires !a.NegInf? && !b.NegInf?
    ensures r.PosInf? <==> a.PosInf? || b.PosInf?
    ensures a.Fin? && b.Fin? ==> r == Fin(a.value + b.value)
  {
    if a.PosInf? || b.PosInf? then PosInf else Fin(a.value + b.value)
  }

  lemma LeTotal(a: ExtInt, b: ExtInt)
    ensures Le(a, b) || Le(b, a)
    ensures Le(a, b) && Le(b, a) ==> a == b
  {
  }

  lemma LeTransitive(a: ExtInt, b: ExtInt, c: ExtInt)
    requires Le(a, b) && Le(b, c)
    ensures Le(a, c)
  {
  }
}
