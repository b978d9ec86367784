/** Sequences whose terms are a gap apart. */
module Spacing {
  import opened Bounded

  /** Every term is at least one gap above all earlier ones. */
  ghost predicate GapBetween(gap: nat, xs: seq<nat>) {
    forall i, j :: 0 <= i < j < |xs| ==> xs[i] + gap <= xs[j]
  }

  /** The i-th and the j-th term are at least j - i gaps apart. */
  ghost predicate SpacedBy(gap: nat, xs: seq<nat>) {
    forall i, j :: 0 <= i < j < |xs| ==> Apart(gap, xs[i], xs[j], j - i)
  }

  ghost predicate Apart(gap: nat, a: nat, b: nat, steps: nat) {
    a + steps * gap <= b
  }

  lemma {:induction false} GapsAdd(gap: nat, xs: seq<nat>, i: nat, j: nat)
    requires GapBetween(gap, xs) && i < j < |xs|
    ensures xs[i] + (j - i) * gap <= xs[j]
    decreases j
  {
    MulSuccessor(gap, j - 1 - i);
    if i + 1 < j {
      GapsAdd(gap, xs, i, j - 1);
    }
  }

  lemma GapBetweenIsSpaced(gap: nat, xs: seq<nat>)
    requires GapBetween(gap, xs)
    ensures SpacedBy(gap, xs)
  {
    forall i, j | 0 <= i < j < |xs|
      ensures Apart(gap, xs[i], xs[j], j - i)
    {
      GapsAdd(gap, xs, i, j);
    }
  }
}
