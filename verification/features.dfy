/** The transfer comparison feature: two local statistics (mean vector and
    covariance matrix of a neighbourhood) are turned into the pair
    [‖μa − μb‖, ‖Ca − Cb‖ / (‖Ca‖ + tol)], with `a` the reference. The norm is
    abstract: any non-negative function that is 0 on the zero vector (the
    Euclidean and Frobenius norms of numpy are instances). Covariance matrices
    are kept flattened, so one norm serves both. */
module Features {

  /** The numeric tolerance used throughout the program (1e-10). */
  const Tol: real := 0.0000000001

  /** Mean vector and (row-major, flattened) covariance matrix of a neighbourhood. */
  datatype LocalStats = LocalStats(mean: seq<real>, cov: seq<real>)

  /** One row of the transfer classifier's input. */
  datatype Feature = Feature(meanShift: real, covShift: real)

  /** Element-wise difference of two equally long vectors. */
  function Diff(a: seq<real>, b: seq<real>): (r: seq<real>)
    requires |a| == |b|
    ensures |r| == |a|
    ensures forall i :: 0 <= i < |r| ==> r[i] == a[i] - b[i]
  {
    seq(|a|, i requires 0 <= i < |a| => a[i] - b[i])
  }

  ghost predicate IsZero(v: seq<real>)
  {
    forall i :: 0 <= i < |v| ==> v[i] == 0.0
  }

  /** What the model assumes of the norm: never negative, and 0 on zero vectors. */
  ghost predicate IsNorm(norm: seq<real> -> real)
  {
    && (forall v :: norm(v) >= 0.0)
    && (forall v :: IsZero(v) ==> norm(v) == 0.0)
  }

  /** Statistics of the same dimension, so that they can be subtracted. */
  predicate Comparable(a: LocalStats, b: LocalStats)
  {
    |a.mean| == |b.mean| && |a.cov| == |b.cov|
  }

  /** The comparison feature of `b` against the reference `a`. Both components are
      non-negative, and the covariance shift is the covariance-difference norm
      measured in units of the reference's own covariance norm (plus tol), so the
      denominator is never below tol. */
  function Compare(a: LocalStats, b: LocalStats, norm: seq<real> -> real): (f: Feature)
    requires Comparable(a, b)
    requires IsNorm(norm)
    ensures 0.0 <= f.meanShift && 0.0 <= f.covShift
    ensures f.covShift * (norm(a.cov) + Tol) == norm(Diff(a.cov, b.cov))
    ensures f.meanShift == norm(Diff(a.mean, b.mean))
  {
    Feature(norm(Diff(a.mean, b.mean)), norm(Diff(a.cov, b.cov)) / (norm(a.cov) + Tol))
  }

  /** Identical statistics compare as [0, 0]. */
  lemma CompareSelf(a: LocalStats, norm: seq<real> -> real)
    requires IsNorm(norm)
    ensures Compare(a, a, norm) == Feature(0.0, 0.0)
  {
    assert IsZero(Diff(a.mean, a.mean));
    assert IsZero(Diff(a.cov, a.cov));
  }

  /** The sum of absolute values. The program itself only uses the Euclidean
      (Frobenius) norm; this one exists as a concrete norm that meets `IsNorm`,
      the witness for `CompareAsymmetric`. */
  function L1(v: seq<real>): (r: real)
    ensures r >= 0.0
    ensures IsZero(v) ==> r == 0.0
  {
    if |v| == 0 then 0.0
    else
      var x := v[|v| - 1];
      L1(v[..|v| - 1]) + (if x < 0.0 then -x else x)
  }

  lemma L1IsNorm()
    ensures IsNorm(L1)
  {
    forall v: seq<real> ensures IsZero(v) ==> L1(v) == 0.0 {
    }
  }

  /** The feature is not symmetric: with the L1 norm, a reference covariance [1]
      against [2] gives a covariance shift of 1/(1+tol), the other way round
      1/(2+tol). */
  lemma CompareAsymmetric(a: LocalStats, b: LocalStats)
    requires a == LocalStats([0.0], [1.0]) && b == LocalStats([0.0], [2.0])
    ensures IsNorm(L1)
    ensures Compare(a, b, L1) != Compare(b, a, L1)
  {
    L1IsNorm();
    assert Diff(a.cov, b.cov) == [-1.0];
    assert Diff(b.cov, a.cov) == [1.0];
    assert L1([-1.0]) == 1.0 by { assert [-1.0][..0] == []; }
    assert L1([1.0]) == 1.0 by { assert [1.0][..0] == []; }
    assert L1([1.0]) == 1.0;
    assert L1([2.0]) == 2.0 by { assert [2.0][..0] == []; }
  }
}
