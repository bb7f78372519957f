/** Integers extended with -Infinity and +Infinity, the values the search keeps
    in its alpha, beta and running-best variables, with the comparisons and the
    Math.max / Math.min the search applies to them. */
module ExtInt {

  datatype ExtInt = NegInf | Fin(val: int) | PosInf

  /** x <= y on the extended line. */
  predicate Le(x: ExtInt, y: ExtInt)
  {
    match (x, y)
    case (NegInf, _) => true
    case (_, PosInf) => true
    case (Fin(a), Fin(b)) => a <= b
    case _ => false
  }

  /** x < y on the extended line. */
  predicate Lt(x: ExtInt, y: ExtInt)
  {
    !Le(y, x)
  }

  /** Math.max on extended integers: an upper bound of both arguments that is one of them. */
  function Max(x: ExtInt, y: ExtInt): (r: ExtInt)
    ensures Le(x, r) && Le(y, r)
    ensures r == x || r == y
  {
    if Le(x, y) then y else x
  }

  /** Math.min on extended integers: a lower bound of both arguments that is one of them. */
  function Min(x: ExtInt, y: ExtInt): (r: ExtInt)
    ensures Le(r, x) && Le(r, y)
    ensures r == x || r == y
  {
    if Le(x, y) then x else y
  }
}
