/**
 * Reals extended with the two infinities. The importer seeds its running
 * minimum with +infinity and its running maximum with -infinity, so the
 * extremes it stores are values of this type.
 */
module Extended {

  datatype ExtReal = NegInf | Finite(value: real) | PosInf

  /** The strict order of the extended reals: -inf < every real < +inf. */
  predicate Less(a: ExtReal, b: ExtReal) {
    match (a, b)
    case (NegInf, NegInf) => false
    case (NegInf, _) => true
    case (Finite(x), Finite(y)) => x < y
    case (Finite(_), PosInf) => true
    case (Finite(_), NegInf) => false
    case (PosInf, _) => false
  }

  predicate LessEq(a: ExtReal, b: ExtReal) {
    a == b || Less(a, b)
  }
}
