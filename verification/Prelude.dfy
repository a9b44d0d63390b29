/** Vocabulary shared by every model: optional values and sums of sequences. */
module Prelude {

  datatype Option<+T> = None | Some(value: T)

  /** Sum of a sequence, last element outermost so that it follows a loop's prefix. */
  function Total(xs: seq<int>): int {
    if |xs| == 0 then 0 else Total(xs[..|xs| - 1]) + xs[|xs| - 1]
  }

  /** Two sequences that differ at most at `k` have totals that differ by that element. */
  lemma {:induction false} TotalPoint(xs: seq<int>, ys: seq<int>, k: nat)
    requires |xs| == |ys| && k < |xs|
    requires forall i :: 0 <= i < |xs| && i != k ==> xs[i] == ys[i]
    ensures Total(ys) == Total(xs) - xs[k] + ys[k]
  {
    var n := |xs| - 1;
    if k < n {
      TotalPoint(xs[..n], ys[..n], k);
    } else {
      assert xs[..n] == ys[..n];
    }
  }

  lemma TotalAppend(xs: seq<int>, x: int)
    ensures Total(xs + [x]) == Total(xs) + x
  {
    assert (xs + [x])[..|xs|] == xs;
  }
}
