// Runs of a state machine: what every step keeps, every run keeps.

module Runs {

  /** `ws[k + 1]` is reached from `ws[k]` by event `es[k]`. */
  ghost predicate Linked<W, E>(step: (W, E, W) -> bool, ws: seq<W>, es: seq<E>) {
    && |ws| == |es| + 1
    && forall k :: 0 <= k < |es| ==> step(ws[k], es[k], ws[k + 1])
  }

  ghost predicate Kept<W(!new), E(!new)>(step: (W, E, W) -> bool, good: W -> bool) {
    forall w, e, next :: good(w) && step(w, e, next) ==> good(next)
  }

  lemma {:induction false} KeptThroughout<W(!new), E(!new)>(step: (W, E, W) -> bool, good: W -> bool, ws: seq<W>, es: seq<E>, i: nat, j: nat)
    requires |ws| == |es| + 1 && i <= j < |ws| && forall k :: i <= k < j ==> step(ws[k], es[k], ws[k + 1])
    requires Kept(step, good) && good(ws[i])
    ensures good(ws[j])
    decreases j
  {
    if i < j {
      KeptThroughout(step, good, ws, es, i, j - 1);
    }
  }
}
