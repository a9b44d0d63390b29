/** The check digit of a Colombian tax number (import-customers.ts). */
module Nit {
  import opened Prelude

  const WEIGHTS: seq<int> := [71, 67, 59, 53, 47, 43, 41, 37, 29, 23, 19, 17, 13, 7, 3]

  /** `weights.slice(-len)`: the last `len` weights; for no digits, and for more digits than weights, all of them. */
  function Used(len: nat): (w: seq<int>)
    ensures len <= |WEIGHTS| ==> len <= |w| <= |WEIGHTS|
  {
    if 0 < len <= |WEIGHTS| then WEIGHTS[|WEIGHTS| - len..] else WEIGHTS
  }

  ghost predicate AreDigits(ds: seq<int>) {
    forall i :: 0 <= i < |ds| ==> 0 <= ds[i] <= 9
  }

  /** The reduce over the first `n` digits. */
  function WeightedSum(ds: seq<int>, used: seq<int>, n: nat): int
    requires n <= |ds| <= |used|
  {
    if n == 0 then 0 else WeightedSum(ds, used, n - 1) + ds[n - 1] * used[n - 1]
  }

  function Residue(ds: seq<int>): int
    requires |ds| <= |WEIGHTS|
  {
    WeightedSum(ds, Used(|ds|), |ds|) % 11
  }

  /** nitCheckDigit; a digit beyond the weights makes the sum NaN, here None. */
  function CheckDigit(ds: seq<int>): Option<int> {
    if |ds| > |WEIGHTS| then None
    else
      var rest := Residue(ds);
      Some(if rest >= 2 then 11 - rest else rest)
  }

  // --- arithmetic modulo eleven ----------------------------------------------------------

  lemma WeightsPrimeToEleven(k: nat)
    requires k < |WEIGHTS|
    ensures WEIGHTS[k] % 11 != 0
  {
  }

  lemma NeighboursDiffer(k: nat)
    requires k + 1 < |WEIGHTS|
    ensures (WEIGHTS[k] - WEIGHTS[k + 1]) % 11 != 0
  {
  }

  lemma UsedAt(len: nat, i: nat)
    requires i < len <= |WEIGHTS|
    ensures Used(len)[i] == WEIGHTS[|WEIGHTS| - len + i]
  {
  }

  lemma SmallProduct(e: int, r: int)
    requires 1 <= e <= 9 && 1 <= r <= 10
    ensures (e * r) % 11 != 0
  {
    if e == 1 {} else if e == 2 {} else if e == 3 {} else if e == 4 {} else if e == 5 {}
    else if e == 6 {} else if e == 7 {} else if e == 8 {} else {}
  }

  lemma ProductResidue(e: int, w: int)
    ensures (e * w) % 11 == (e * (w % 11)) % 11
  {
    var q, r := w / 11, w % 11;
    assert w == 11 * q + r;
    assert e * w == 11 * (e * q) + e * r;
    MultipleApart(e * q, e * r);
  }

  lemma MultipleApart(k: int, x: int)
    ensures (11 * k + x) % 11 == x % 11
  {
  }

  /** Eleven is prime: a digit difference times a weight that is no multiple is no multiple. */
  lemma NoMultiple(e: int, w: int)
    requires -9 <= e <= 9
    ensures (e * w) % 11 == 0 <==> e == 0 || w % 11 == 0
  {
    var r := w % 11;
    ProductResidue(e, w);
    if 1 <= e && r != 0 {
      SmallProduct(e, r);
    }
    if e <= -1 && r != 0 {
      SmallProduct(-e, r);
      assert (-e) * r == -(e * r);
    }
  }

  lemma SameResidue(s: int, t: int)
    ensures s % 11 == t % 11 <==> (t - s) % 11 == 0
  {
  }

  // --- one digit changed -------------------------------------------------------------------

  lemma {:induction false} ChangedSum(ds: seq<int>, used: seq<int>, i: nat, d: int, n: nat)
    requires i < |ds| && n <= |ds| <= |used|
    ensures WeightedSum(ds[i := d], used, n) == WeightedSum(ds, used, n) + if i < n then (d - ds[i]) * used[i] else 0
  {
    if n > 0 {
      ChangedSum(ds, used, i, d, n - 1);
      if i == n - 1 {
        assert (d - ds[i]) * used[i] == d * used[i] - ds[i] * used[i];
      }
    }
  }

  lemma OneDigitMovesResidue(ds: seq<int>, i: nat, d: int)
    requires AreDigits(ds) && i < |ds| <= |WEIGHTS| && 0 <= d <= 9
    ensures Residue(ds[i := d]) == Residue(ds) <==> d == ds[i]
  {
    hide WeightedSum, Used;
    var used := Used(|ds|);
    ChangedSum(ds, used, i, d, |ds|);
    UsedAt(|ds|, i);
    WeightsPrimeToEleven(|WEIGHTS| - |ds| + i);
    NoMultiple(d - ds[i], used[i]);
    SameResidue(WeightedSum(ds, used, |ds|), WeightedSum(ds[i := d], used, |ds|));
  }

  /** Two digits exchanged leave the residue alone exactly when they, or their weights modulo eleven, are equal. */
  lemma SwapMovesResidue(ds: seq<int>, i: nat, j: nat)
    requires AreDigits(ds) && i < j < |ds| <= |WEIGHTS|
    ensures Residue(ds[i := ds[j]][j := ds[i]]) == Residue(ds)
      <==> ds[i] == ds[j] || (Used(|ds|)[i] - Used(|ds|)[j]) % 11 == 0
  {
    hide WeightedSum, Used;
    var used := Used(|ds|);
    SwappedSum(ds, used, i, j);
    NoMultiple(ds[j] - ds[i], used[i] - used[j]);
    SameResidue(WeightedSum(ds, used, |ds|), WeightedSum(ds[i := ds[j]][j := ds[i]], used, |ds|));
  }

  lemma SwappedSum(ds: seq<int>, used: seq<int>, i: nat, j: nat)
    requires i < j < |ds| <= |used|
    ensures WeightedSum(ds[i := ds[j]][j := ds[i]], used, |ds|)
      == WeightedSum(ds, used, |ds|) + (ds[j] - ds[i]) * (used[i] - used[j])
  {
    hide WeightedSum;
    ChangedSum(ds, used, i, ds[j], |ds|);
    ChangedSum(ds[i := ds[j]], used, j, ds[i], |ds|);
    var e := ds[j] - ds[i];
    assert (ds[i] - ds[j]) * used[j] == -(e * used[j]);
    assert e * (used[i] - used[j]) == e * used[i] - e * used[j];
  }

  lemma SameCheckDigit(s: seq<int>, t: seq<int>)
    requires |s| <= |WEIGHTS| && |t| <= |WEIGHTS|
    ensures CheckDigit(s) == CheckDigit(t) <==> Residue(s) == Residue(t) || {Residue(s), Residue(t)} == {1, 10}
  {
    hide WeightedSum;
  }

  /** A mistyped digit goes unnoticed exactly when it moves the residue between 1 and 10. */
  lemma MistypedDigitIsMissedExactlyWhen(ds: seq<int>, i: nat, d: int)
    requires AreDigits(ds) && i < |ds| <= |WEIGHTS| && 0 <= d <= 9 && d != ds[i]
    ensures CheckDigit(ds[i := d]) == CheckDigit(ds) <==> {Residue(ds), Residue(ds[i := d])} == {1, 10}
  {
    hide Residue, CheckDigit, Used;
    OneDigitMovesResidue(ds, i, d);
    SameCheckDigit(ds[i := d], ds);
  }

  /** So does an exchange of unequal neighbours. */
  lemma SwappedNeighboursAreMissedExactlyWhen(ds: seq<int>, i: nat)
    requires AreDigits(ds) && i + 1 < |ds| <= |WEIGHTS| && ds[i] != ds[i + 1]
    ensures var swapped := ds[i := ds[i + 1]][i + 1 := ds[i]];
      CheckDigit(swapped) == CheckDigit(ds) <==> {Residue(ds), Residue(swapped)} == {1, 10}
  {
    hide Residue, CheckDigit, Used;
    SwapMovesResidue(ds, i, i + 1);
    UsedAt(|ds|, i);
    UsedAt(|ds|, i + 1);
    NeighboursDiffer(|WEIGHTS| - |ds| + i);
    SameCheckDigit(ds[i := ds[i + 1]][i + 1 := ds[i]], ds);
  }

  /** The check digits of 1, 10, 100 and so on, up to fifteen digits. */
  const POWER_DIGITS: seq<int> := [8, 4, 9, 5, 3, 1, 4, 7, 3, 1, 8, 2, 7, 1, 6]

  function PowerOfTen(k: nat): seq<int> { [1] + seq(k, i requires 0 <= i < k => 0) }

  lemma {:induction false} OnlyFirstCounts(ds: seq<int>, used: seq<int>, n: nat)
    requires 0 < n <= |ds| <= |used| && ds[0] == 1 && forall i :: 0 < i < |ds| ==> ds[i] == 0
    ensures WeightedSum(ds, used, n) == used[0]
  {
    if n > 1 {
      OnlyFirstCounts(ds, used, n - 1);
    } else {
      assert WeightedSum(ds, used, 0) == 0;
    }
  }

  /** Each of the fifteen places has its own weight, counted from the right. */
  lemma PowersOfTen(k: nat)
    requires k < 15
    ensures CheckDigit(PowerOfTen(k)) == Some(POWER_DIGITS[k])
  {
    hide WeightedSum, Used;
    OnlyFirstCounts(PowerOfTen(k), Used(k + 1), k + 1);
    UsedAt(k + 1, 0);
    hide PowerOfTen;
    PlaceDigit(k);
  }

  lemma PlaceDigit(k: nat)
    requires k < 15
    ensures var rest := WEIGHTS[14 - k] % 11; POWER_DIGITS[k] == if rest >= 2 then 11 - rest else rest
  {
  }

  /** Such a miss exists: the numbers 4 and 7. */
  lemma FourAndSevenShareACheckDigit()
    ensures CheckDigit([4]) == CheckDigit([7]) == Some(1)
  {
    assert Used(1) == [3];
    assert WeightedSum([4], [3], 1) == 12 && WeightedSum([7], [3], 1) == 21;
  }
}
