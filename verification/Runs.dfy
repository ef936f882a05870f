/** Induction along a run. */
module Runs {

  /** What holds at one moment and is kept by every later step holds ever after. */
  lemma {:induction false} Onwards<T>(ss: seq<T>, p: T -> bool, i: nat, k: nat)
    requires i <= k < |ss| && p(ss[i])
    requires forall n | i <= n < k && p(ss[n]) :: p(ss[n + 1])
    ensures p(ss[k])
    decreases k - i
  {
    if i < k {
      Onwards(ss, p, i, k - 1);
    }
  }
}
