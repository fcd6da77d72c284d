/**
 * Solve distances: a number of moves or +∞, compared and combined the way
 * JavaScript numbers with `Number.POSITIVE_INFINITY` are.
 */
module Distance {

  datatype Dist = Fin(n: nat) | Inf

  /** `a < b` on numbers extended with +∞ (so `∞ < ∞` is false). */
  predicate Lt(a: Dist, b: Dist)
  {
    a.Fin? && (b.Inf? || a.n < b.n)
  }

  predicate Le(a: Dist, b: Dist)
  {
    b.Inf? || (a.Fin? && a.n <= b.n)
  }

  /** `a + 1`, with `∞ + 1 == ∞`. */
  function Plus1(a: Dist): Dist
  {
    if a.Inf? then Inf else Fin(a.n + 1)
  }

  /** `Math.min(a, b)`. */
  function Min(a: Dist, b: Dist): (r: Dist)
    ensures (r == a || r == b) && Le(r, a) && Le(r, b)
  {
    if Lt(a, b) then a else b
  }

  lemma LtIsNotLe(a: Dist, b: Dist)
    ensures Lt(a, b) <==> !Le(b, a)
  {
  }
}
