/** Properties of the states along a run. */
module Runs {
  /** A property that holds after step k and is kept by every later step holds from there on. */
  lemma {:induction false} Since(p: nat -> bool, k: nat, m: nat)
    requires k < m && p(k + 1) && forall n: nat | k < n < m && p(n) :: p(n + 1)
    ensures p(m)
    decreases m
  {
    if k + 1 < m {
      Since(p, k, m - 1);
    }
  }
}
