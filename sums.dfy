/** Sums of integer sequences (numpy's np.sum over a 1-D integer array). */
module Sums {

  /** Sum of a whole sequence. */
  function Sum(s: seq<int>): (t: int)
    ensures (forall i :: 0 <= i < |s| ==> s[i] >= 0) ==> t >= 0
  {
    SumTo(s, |s|)
  }

  /** Sum of the first n elements, adding them left to right as a running
      total does. */
  function SumTo(s: seq<int>, n: nat): (t: int)
    requires n <= |s|
    ensures (forall i :: 0 <= i < n ==> s[i] >= 0) ==> t >= 0
  {
    if n == 0 then 0 else SumTo(s, n - 1) + s[n - 1]
  }

  /** The partial sum depends only on the elements it covers. */
  lemma {:induction false} SumToAgree(s: seq<int>, t: seq<int>, n: nat)
    requires n <= |s| && n <= |t|
    requires forall i :: 0 <= i < n ==> s[i] == t[i]
    ensures SumTo(s, n) == SumTo(t, n)
  {
    if n > 0 {
      SumToAgree(s, t, n - 1);
    }
  }

  /** Overwriting one element changes a partial sum that covers it by
      exactly the difference, and leaves one that does not cover it alone. */
  lemma {:induction false} SumToUpdate(s: seq<int>, n: nat, k: nat, v: int)
    requires n <= |s| && k < |s|
    ensures SumTo(s[k := v], n) == if k < n then SumTo(s, n) - s[k] + v else SumTo(s, n)
  {
    if n > 0 {
      SumToUpdate(s, n - 1, k, v);
    }
  }

  /** Overwriting one element changes the sum by exactly the difference. */
  lemma SumUpdate(s: seq<int>, k: nat, v: int)
    requires k < |s|
    ensures Sum(s[k := v]) == Sum(s) - s[k] + v
  {
    SumToUpdate(s, |s|, k, v);
  }

  /** n zeros. */
  function Zeros(n: nat): (z: seq<int>)
    ensures |z| == n && forall i :: 0 <= i < n ==> z[i] == 0
  {
    if n == 0 then [] else Zeros(n - 1) + [0]
  }

  /** Zeros sum to zero. */
  lemma {:induction false} SumToZeros(n: nat, k: nat)
    requires k <= n
    ensures SumTo(Zeros(n), k) == 0
  {
    if k > 0 {
      SumToZeros(n, k - 1);
    }
  }
}
