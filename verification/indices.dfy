/** The numpy idioms the LocIT code is built from, over Dafny sequences:
    `np.where(mask)[0]`, fancy indexing `v[ix]`, `np.sum`, and slicing with
    Python's clamping rules. */
module Indices {

  /** `np.sum(v)`. */
  function Total(v: seq<real>): real
  {
    if |v| == 0 then 0.0 else Total(v[..|v| - 1]) + v[|v| - 1]
  }

  /** Fancy indexing `v[ix]`: the entries of `v` at the positions `ix`, in that order. */
  function Gather<T>(v: seq<T>, ix: seq<nat>): (r: seq<T>)
    requires forall p :: 0 <= p < |ix| ==> ix[p] < |v|
    ensures |r| == |ix|
    ensures forall p :: 0 <= p < |ix| ==> r[p] == v[ix[p]]
  {
    seq(|ix|, p requires 0 <= p < |ix| => v[ix[p]])
  }

  /** Number of set flags. */
  function Count(b: seq<bool>): (r: nat)
    ensures r <= |b|
  {
    if |b| == 0 then 0 else Count(b[..|b| - 1]) + (if b[|b| - 1] then 1 else 0)
  }

  ghost predicate Increasing(s: seq<nat>)
  {
    forall p, q :: 0 <= p < q < |s| ==> s[p] < s[q]
  }

  /** `np.where(b)[0]`: the positions of the set flags, in ascending order. */
  function Where(b: seq<bool>): (r: seq<nat>)
    ensures Increasing(r)
    ensures forall p :: 0 <= p < |r| ==> r[p] < |b| && b[r[p]]
    ensures |r| == Count(b)
  {
    if |b| == 0 then []
    else
      var front := Where(b[..|b| - 1]);
      if b[|b| - 1] then front + [|b| - 1] else front
  }

  /** Every set flag is found by `Where`. */
  lemma {:induction false} WhereComplete(b: seq<bool>, j: nat)
    requires j < |b| && b[j]
    ensures j in Where(b)
  {
    if j < |b| - 1 {
      WhereComplete(b[..|b| - 1], j);
    }
  }

  /** Sum of the entries of `v` whose flag in `b` is set. */
  function MaskedSum(v: seq<real>, b: seq<bool>): real
    requires |v| == |b|
  {
    if |v| == 0 then 0.0
    else MaskedSum(v[..|v| - 1], b[..|b| - 1]) + (if b[|b| - 1] then v[|v| - 1] else 0.0)
  }

  ghost predicate NonNegative(v: seq<real>)
  {
    forall j :: 0 <= j < |v| ==> v[j] >= 0.0
  }

  ghost predicate AllPositive(v: seq<real>)
  {
    forall j :: 0 <= j < |v| ==> v[j] > 0.0
  }

  /** Python's `s[lo:hi]` for non-negative bounds: the end is clamped to the
      length, and a range that is empty after clamping gives the empty sequence. */
  function Slice<T>(s: seq<T>, lo: nat, hi: nat): (r: seq<T>)
    ensures |r| == if Min(hi, |s|) <= lo then 0 else Min(hi, |s|) - lo
    ensures forall p :: 0 <= p < |r| ==> r[p] == s[lo + p]
  {
    var stop := Min(hi, |s|);
    if stop <= lo then [] else s[lo..stop]
  }

  function Min(a: int, b: int): int
  {
    if a <= b then a else b
  }

  /** Summing the gathered entries at the set positions is the masked sum. */
  lemma {:induction false} GatherWhereSum(v: seq<real>, b: seq<bool>)
    requires |v| == |b|
    ensures Total(Gather(v, Where(b))) == MaskedSum(v, b)
  {
    if |b| > 0 {
      var n := |b|;
      var front := Where(b[..n - 1]);
      GatherWhereSum(v[..n - 1], b[..n - 1]);
      assert Gather(v, front) == Gather(v[..n - 1], front);
      if b[n - 1] {
        var g := Gather(v, front + [n - 1]);
        assert g[..|front|] == Gather(v, front);
      }
    }
  }

  /** The entries of an ascending sequence of naturals are at least one apart. */
  lemma {:induction false} IncreasingSpread(r: seq<nat>)
    requires Increasing(r) && |r| > 0
    ensures r[|r| - 1] >= r[0] + |r| - 1
  {
    if |r| > 1 {
      IncreasingSpread(r[..|r| - 1]);
    }
  }

  /** Gathering twice is gathering once with the composed positions. */
  lemma GatherGather<T>(v: seq<T>, outer: seq<nat>, inner: seq<nat>)
    requires forall p :: 0 <= p < |outer| ==> outer[p] < |v|
    requires forall q :: 0 <= q < |inner| ==> inner[q] < |outer|
    ensures Gather(Gather(v, outer), inner) == Gather(v, Gather(outer, inner))
  {
  }

  /** Dropping flags can only lower a masked sum of non-negative entries. */
  lemma {:induction false} MaskedSumMonotone(v: seq<real>, a: seq<bool>, b: seq<bool>)
    requires |v| == |a| == |b|
    requires NonNegative(v)
    requires forall j :: 0 <= j < |a| && a[j] ==> b[j]
    ensures 0.0 <= MaskedSum(v, a) <= MaskedSum(v, b)
  {
    if |v| > 0 {
      var n := |v|;
      MaskedSumMonotone(v[..n - 1], a[..n - 1], b[..n - 1]);
    }
  }

  /** A masked sum of non-negative entries is at least any one selected entry. */
  lemma {:induction false} MaskedSumAtLeast(v: seq<real>, b: seq<bool>, j: nat)
    requires |v| == |b|
    requires NonNegative(v)
    requires j < |b| && b[j]
    ensures MaskedSum(v, b) >= v[j]
  {
    var n := |v|;
    if j == n - 1 {
      MaskedSumMonotone(v[..n - 1], b[..n - 1], b[..n - 1]);
    } else {
      MaskedSumAtLeast(v[..n - 1], b[..n - 1], j);
    }
  }

  /** A masked sum of non-negative entries never exceeds the full sum. */
  lemma {:induction false} MaskedSumAtMostTotal(v: seq<real>, b: seq<bool>)
    requires |v| == |b|
    requires NonNegative(v)
    ensures MaskedSum(v, b) <= Total(v)
  {
    if |v| > 0 {
      MaskedSumAtMostTotal(v[..|v| - 1], b[..|b| - 1]);
    }
  }

  /** The sum of positive entries is positive as soon as there is one. */
  lemma {:induction false} TotalPositive(v: seq<real>)
    requires AllPositive(v)
    ensures |v| > 0 ==> Total(v) > 0.0
    ensures Total(v) >= 0.0
  {
    if |v| > 0 {
      TotalPositive(v[..|v| - 1]);
    }
  }

  /** A ratio of a part to a positive whole lies in [0, 1]. */
  lemma RatioInUnit(a: real, b: real)
    requires 0.0 <= a <= b && 0.0 < b
    ensures (a / b) * b == a && 0.0 <= a / b <= 1.0
  {
  }

  /** `np.intersect1d(a, b)` for two lists of positions below `n`: the positions
      in both, ascending and without repeats. */
  function Intersect(a: seq<nat>, b: seq<nat>, n: nat): (r: seq<nat>)
    ensures Increasing(r)
    ensures forall p :: 0 <= p < |r| ==> r[p] < n && r[p] in a && r[p] in b
    ensures |r| <= n
  {
    Where(InBoth(a, b, n))
  }

  function InBoth(a: seq<nat>, b: seq<nat>, n: nat): (m: seq<bool>)
    ensures |m| == n && forall j :: 0 <= j < n ==> (m[j] <==> j in a && j in b)
  {
    seq(n, j requires 0 <= j < n => j in a && j in b)
  }

  /** Every position below `n` in both lists is in their intersection. */
  lemma IntersectComplete(a: seq<nat>, b: seq<nat>, n: nat, j: nat)
    requires j < n && j in a && j in b
    ensures j in Intersect(a, b, n)
  {
    WhereComplete(InBoth(a, b, n), j);
  }
}
