/** `np.argmin` / `np.argmax` over a one-dimensional array of reals: the index
    of an extreme element, the first one when several tie. */
module Extrema {

  predicate IsFirstMin(a: seq<real>, k: int)
  {
    && 0 <= k < |a|
    && (forall j :: 0 <= j < |a| ==> a[k] <= a[j])
    && (forall j :: 0 <= j < k ==> a[j] > a[k])
  }

  predicate IsFirstMax(a: seq<real>, k: int)
  {
    && 0 <= k < |a|
    && (forall j :: 0 <= j < |a| ==> a[k] >= a[j])
    && (forall j :: 0 <= j < k ==> a[j] < a[k])
  }

  /** Scans left to right and moves only to a strictly smaller element. */
  function ArgMin(a: seq<real>): (k: nat)
    requires |a| > 0
    ensures IsFirstMin(a, k)
  {
    if |a| == 1 then 0
    else
      var k := ArgMin(a[..|a| - 1]);
      if a[|a| - 1] < a[k] then |a| - 1 else k
  }

  /** Scans left to right and moves only to a strictly larger element. */
  function ArgMax(a: seq<real>): (k: nat)
    requires |a| > 0
    ensures IsFirstMax(a, k)
  {
    if |a| == 1 then 0
    else
      var k := ArgMax(a[..|a| - 1]);
      if a[|a| - 1] > a[k] then |a| - 1 else k
  }

  /** The first-occurrence rule leaves no choice: at most one index qualifies. */
  lemma FirstMinUnique(a: seq<real>, k: int, l: int)
    requires IsFirstMin(a, k) && IsFirstMin(a, l)
    ensures k == l
  {
    assert a[k] == a[l];
  }

  lemma FirstMaxUnique(a: seq<real>, k: int, l: int)
    requires IsFirstMax(a, k) && IsFirstMax(a, l)
    ensures k == l
  {
    assert a[k] == a[l];
  }
}
