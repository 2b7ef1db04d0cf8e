/**
 * Dense integer vectors as the threshold-gate formulation uses them:
 * weight vectors, rows of the constraint matrix and 0/1 assignments.
 */
module Vectors {

  /** The weighted sum a[0]*x[0] + ... + a[n-1]*x[n-1], accumulated from the front. */
  function Dot(a: seq<int>, x: seq<int>): int
    requires |a| == |x|
    decreases |a|
  {
    if |a| == 0 then 0
    else Dot(a[..|a| - 1], x[..|x| - 1]) + a[|a| - 1] * x[|x| - 1]
  }

  /** Every entry multiplied by c; the source writes c == -1 as `-1*weight`. */
  function Scaled(a: seq<int>, c: int): seq<int>
  {
    seq(|a|, k requires 0 <= k < |a| => c * a[k])
  }

  /** The n-entry row with c at position i and 0 elsewhere. */
  function Unit(n: nat, i: nat, c: int): seq<int>
  {
    seq(n, j => if j == i then c else 0)
  }

  /** An assignment of the 0/1 decision variables. */
  predicate IsBinary(x: seq<int>)
  {
    forall i :: 0 <= i < |x| ==> x[i] == 0 || x[i] == 1
  }

  /** No entry is negative: the default column bounds [0, +inf) of lp_solve. */
  predicate NonNegative(x: seq<int>)
  {
    forall i :: 0 <= i < |x| ==> x[i] >= 0
  }

  /** s is the sum of the weights of some subset of the inputs. */
  ghost predicate IsSubsetSum(w: seq<int>, s: int)
  {
    exists x :: |x| == |w| && IsBinary(x) && Dot(w, x) == s
  }

  /** Scaling a row scales its weighted sum. */
  lemma {:induction false} DotScaled(a: seq<int>, c: int, x: seq<int>)
    requires |a| == |x|
    ensures Dot(Scaled(a, c), x) == c * Dot(a, x)
    decreases |a|
  {
    if |a| > 0 {
      var n := |a|;
      assert Scaled(a, c)[..n - 1] == Scaled(a[..n - 1], c);
      DotScaled(a[..n - 1], c, x[..n - 1]);
      assert c * (Dot(a[..n - 1], x[..n - 1]) + a[n - 1] * x[n - 1])
          == c * Dot(a[..n - 1], x[..n - 1]) + (c * a[n - 1]) * x[n - 1];
    }
  }

  /** A unit row picks out (a multiple of) one variable; a row whose marked position
      lies outside the vector contributes nothing. */
  lemma {:induction false} DotUnit(n: nat, i: nat, c: int, x: seq<int>)
    requires |x| == n
    ensures Dot(Unit(n, i, c), x) == if i < n then c * x[i] else 0
    decreases n
  {
    if n > 0 {
      assert Unit(n, i, c)[..n - 1] == Unit(n - 1, i, c);
      DotUnit(n - 1, i, c, x[..n - 1]);
    }
  }

  /** Scaling by -1 twice gives back the row. */
  lemma ScaledTwice(a: seq<int>)
    ensures Scaled(Scaled(a, -1), -1) == a
  {
  }
}
