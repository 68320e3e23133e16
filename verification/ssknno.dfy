/** SSkNNO scoring (`_ssknno_anomaly_detection`) on the combined set: every target
    point starts from an unsupervised prior, and when the combined set carries
    labels the prior is blended with a label-driven share,
    posterior = (1 − Ws)·prior + Ws·Ss.

    The BallTree queries, the percentile threshold gamma and the squashing
    function are inputs: a `Geometry` holds, for the combined set, each point's
    distance to its k-th neighbour, and for every target point its radius
    neighbourhood and its prior. */
module Ssknno {
  import opened Results
  import opened Indices
  import opened Features

  /** How the supervised share is computed. */
  datatype Supervision = Loose | Strict

  /** The radius query for one target point: combined-set indices and their distances. */
  datatype Neighbourhood = Neighbourhood(idx: seq<nat>, dist: seq<real>)

  /** What the queries and the squashing function produce for one combined set. */
  datatype Geometry = Geometry(kDist: seq<real>, hoods: seq<Neighbourhood>, prior: seq<real>)

  /** The share Ss and the weight Ws of the supervised component of one target point. */
  datatype Supervised = Supervised(share: real, weight: real)

  /** A radius neighbourhood within a combined set of `n` points. */
  ghost predicate HoodFits(h: Neighbourhood, n: nat)
  {
    && |h.idx| == |h.dist|
    && (forall j :: 0 <= j < |h.idx| ==> h.idx[j] < n)
    && (forall j :: 0 <= j < |h.dist| ==> h.dist[j] >= 0.0)
  }

  /** The geometry of a combined set of `n` points queried by `nt` target points. */
  ghost predicate Fits(g: Geometry, n: nat, nt: nat)
  {
    && |g.kDist| == n && |g.hoods| == nt && |g.prior| == nt
    && (forall i :: 0 <= i < nt ==> HoodFits(g.hoods[i], n))
  }

  /** Each combined point's radius: its k-th neighbour distance plus tol. */
  function Radii(kDist: seq<real>): (r: seq<real>)
    ensures |r| == |kDist| && forall j :: 0 <= j < |r| ==> r[j] > kDist[j]
  {
    seq(|kDist|, j requires 0 <= j < |kDist| => kDist[j] + Tol)
  }

  /** Inverse-square distance weights `(1/(d + tol))²`: always positive, and a
      nearer neighbour never weighs less than a farther one. */
  function Weights(dist: seq<real>): (w: seq<real>)
    requires NonNegative(dist)
    ensures |w| == |dist| && AllPositive(w)
    ensures forall j, k :: 0 <= j < |dist| && 0 <= k < |dist| && dist[j] <= dist[k] ==> w[k] <= w[j]
  {
    forall j, k | 0 <= j < |dist| && 0 <= k < |dist| && dist[j] <= dist[k]
      ensures InverseSquare(dist[k]) <= InverseSquare(dist[j])
    {
      InverseSquareAntitone(dist[j], dist[k]);
    }
    seq(|dist|, j requires 0 <= j < |dist| => InverseSquare(dist[j]))
  }

  function InverseSquare(d: real): (r: real)
    requires d >= 0.0
    ensures r > 0.0
  {
    var inv := 1.0 / (d + Tol);
    inv * inv
  }

  lemma InverseSquareAntitone(a: real, b: real)
    requires 0.0 <= a <= b
    ensures InverseSquare(b) <= InverseSquare(a)
  {
    var x, y := 1.0 / (a + Tol), 1.0 / (b + Tol);
    assert y * (b + Tol) == 1.0 && x * (a + Tol) == 1.0;
    assert 0.0 < y;
    assert y * (a + Tol) <= y * (b + Tol);
    assert y * (a + Tol) <= x * (a + Tol);
    assert y <= x;
    assert y * y <= x * y <= x * x;
  }

  /** `labels != 0` */
  function Labelled(labels: seq<int>): (b: seq<bool>)
    ensures |b| == |labels| && forall j :: 0 <= j < |b| ==> (b[j] <==> labels[j] != 0)
  {
    seq(|labels|, j requires 0 <= j < |labels| => labels[j] != 0)
  }

  /** `labels > 0` */
  function Anomalous(labels: seq<int>): (b: seq<bool>)
    ensures |b| == |labels| && forall j :: 0 <= j < |b| ==> (b[j] <==> labels[j] > 0)
  {
    seq(|labels|, j requires 0 <= j < |labels| => labels[j] > 0)
  }

  /** Loose supervision: Ss is the anomalous part of the labelled weight, a share
      in [0, 1], computed only when some neighbour is labelled. */
  function LooseShare(labels: seq<int>, w: seq<real>): (ss: real)
    requires |labels| == |w| && AllPositive(w)
    requires |Where(Labelled(labels))| > 0
    ensures 0.0 <= ss <= 1.0
    ensures MaskedSum(w, Labelled(labels)) > 0.0
    ensures ss == MaskedSum(w, Anomalous(labels)) / MaskedSum(w, Labelled(labels))
  {
    var ixa := Where(Anomalous(labels));
    var ixl := Where(Labelled(labels));
    var anomalous := Total(Gather(w, ixa));
    var labelled := Total(Gather(w, ixl));
    LooseShareParts(labels, w);
    RatioInUnit(anomalous, labelled);
    anomalous / labelled
  }

  lemma LooseShareParts(labels: seq<int>, w: seq<real>)
    requires |labels| == |w| && AllPositive(w)
    requires |Where(Labelled(labels))| > 0
    ensures Total(Gather(w, Where(Anomalous(labels)))) == MaskedSum(w, Anomalous(labels))
    ensures Total(Gather(w, Where(Labelled(labels)))) == MaskedSum(w, Labelled(labels))
    ensures 0.0 <= MaskedSum(w, Anomalous(labels)) <= MaskedSum(w, Labelled(labels))
    ensures 0.0 < MaskedSum(w, Labelled(labels))
  {
    GatherWhereSum(w, Anomalous(labels));
    GatherWhereSum(w, Labelled(labels));
    MaskedSumMonotone(w, Anomalous(labels), Labelled(labels));
    MaskedSumAtLeast(w, Labelled(labels), Where(Labelled(labels))[0]);
  }

  /** `ndists <= radii[nixs]`: the neighbours whose own radius reaches back. */
  function Within(h: Neighbourhood, radii: seq<real>): (b: seq<bool>)
    requires |h.idx| == |h.dist| && forall j :: 0 <= j < |h.idx| ==> h.idx[j] < |radii|
    ensures |b| == |h.idx| && forall j :: 0 <= j < |b| ==> (b[j] <==> h.dist[j] <= radii[h.idx[j]])
  {
    seq(|h.idx|, j requires 0 <= j < |h.idx| => h.dist[j] <= radii[h.idx[j]])
  }

  /** The reverse neighbours: positions (ascending) of the labelled neighbours
      whose own radius reaches back to the target point. */
  function Reverse(labels: seq<int>, h: Neighbourhood, radii: seq<real>): (rev: seq<nat>)
    requires |labels| == |h.idx| == |h.dist|
    requires forall j :: 0 <= j < |h.idx| ==> h.idx[j] < |radii|
    ensures Increasing(rev) && |rev| <= |labels|
    ensures forall p :: 0 <= p < |rev| ==>
              rev[p] < |labels| && labels[rev[p]] != 0 && h.dist[rev[p]] <= radii[h.idx[rev[p]]]
    ensures forall j :: 0 <= j < |labels| && labels[j] != 0 && h.dist[j] <= radii[h.idx[j]] ==> j in rev
  {
    var ixl := Where(Labelled(labels));
    var within := Where(Within(h, radii));
    ReverseComplete(labels, h, radii);
    Intersect(ixl, within, |labels|)
  }

  /** Every labelled neighbour within its own radius is among the reverse neighbours. */
  lemma ReverseComplete(labels: seq<int>, h: Neighbourhood, radii: seq<real>)
    requires |labels| == |h.idx| == |h.dist|
    requires forall j :: 0 <= j < |h.idx| ==> h.idx[j] < |radii|
    ensures forall j :: 0 <= j < |labels| && labels[j] != 0 && h.dist[j] <= radii[h.idx[j]] ==>
              j in Intersect(Where(Labelled(labels)), Where(Within(h, radii)), |labels|)
  {
    forall j | 0 <= j < |labels| && labels[j] != 0 && h.dist[j] <= radii[h.idx[j]]
      ensures j in Intersect(Where(Labelled(labels)), Where(Within(h, radii)), |labels|)
    {
      WhereComplete(Labelled(labels), j);
      WhereComplete(Within(h, radii), j);
      IntersectComplete(Where(Labelled(labels)), Where(Within(h, radii)), |labels|, j);
    }
  }

  /** Strict supervision as the program computes it: the anomalous reverse
      neighbours are found as positions inside `rev`, but those positions are
      then used to index the weights of the whole neighbourhood. The result is
      never negative, but it is not a share: it can exceed 1. */
  function StrictShareAsWritten(labels: seq<int>, w: seq<real>, rev: seq<nat>): (ss: real)
    requires |labels| == |w| && AllPositive(w)
    requires |rev| <= |w| && forall p :: 0 <= p < |rev| ==> rev[p] < |w|
    ensures 0.0 <= ss
  {
    if |rev| == 0 then 0.0
    else
      var ixa := Where(AnomalousAt(labels, rev));
      var anomalous := Total(Gather(w, ixa));
      var reverse := Total(Gather(w, rev));
      TotalPositive(Gather(w, ixa));
      TotalPositive(Gather(w, rev));
      anomalous / reverse
  }

  /** Which entries of `rev` point at an anomalous label. */
  function AnomalousAt(labels: seq<int>, rev: seq<nat>): (b: seq<bool>)
    requires forall p :: 0 <= p < |rev| ==> rev[p] < |labels|
    ensures |b| == |rev| && forall p :: 0 <= p < |rev| ==> (b[p] <==> labels[rev[p]] > 0)
  {
    seq(|rev|, p requires 0 <= p < |rev| => labels[rev[p]] > 0)
  }

  /** Strict supervision with the positions mapped back through `rev`
      (`w[rev[ixa]]`): the anomalous part of the reverse neighbours' weight, a
      share in [0, 1]. */
  function StrictShare(labels: seq<int>, w: seq<real>, rev: seq<nat>): (ss: real)
    requires |labels| == |w| && AllPositive(w)
    requires forall p :: 0 <= p < |rev| ==> rev[p] < |w|
    ensures 0.0 <= ss <= 1.0
    ensures |rev| > 0 ==> Total(Gather(w, rev)) > 0.0
    ensures |rev| > 0 ==> ss == MaskedSum(Gather(w, rev), AnomalousAt(labels, rev)) / Total(Gather(w, rev))
  {
    if |rev| == 0 then 0.0
    else
      var ixa := Where(AnomalousAt(labels, rev));
      var anomalous := Total(Gather(w, Gather(rev, ixa)));
      var reverse := Total(Gather(w, rev));
      StrictShareParts(labels, w, rev);
      RatioInUnit(anomalous, reverse);
      anomalous / reverse
  }

  lemma StrictShareParts(labels: seq<int>, w: seq<real>, rev: seq<nat>)
    requires |labels| == |w| && AllPositive(w)
    requires 0 < |rev| && forall p :: 0 <= p < |rev| ==> rev[p] < |w|
    ensures Total(Gather(w, Gather(rev, Where(AnomalousAt(labels, rev)))))
            == MaskedSum(Gather(w, rev), AnomalousAt(labels, rev))
    ensures 0.0 <= MaskedSum(Gather(w, rev), AnomalousAt(labels, rev)) <= Total(Gather(w, rev))
    ensures 0.0 < Total(Gather(w, rev))
  {
    var mask := AnomalousAt(labels, rev);
    var wr := Gather(w, rev);
    GatherGather(w, rev, Where(mask));
    GatherWhereSum(wr, mask);
    MaskedSumMonotone(wr, mask, mask);
    MaskedSumAtMostTotal(wr, mask);
    TotalPositive(wr);
  }

  /** The supervised component of one target point. Without a labelled
      neighbour both Ss and Ws are 0; otherwise Ws is the fraction of the
      neighbourhood made of reverse neighbours, so it lies in [0, 1], and Ss is
      the loose share or the strict share as the program computes it. */
  function SupervisedPart(h: Neighbourhood, y: seq<int>, radii: seq<real>, mode: Supervision): (sp: Supervised)
    requires HoodFits(h, |y|) && |radii| == |y|
    ensures 0.0 <= sp.weight <= 1.0 && 0.0 <= sp.share
    ensures mode == Loose ==> sp.share <= 1.0
    ensures (forall j :: 0 <= j < |h.idx| ==> y[h.idx[j]] == 0) ==> sp == Supervised(0.0, 0.0)
  {
    var labels := Gather(y, h.idx);
    var w := Weights(h.dist);
    var ixl := Where(Labelled(labels));
    UnlabelledHood(y, h.idx);
    if |ixl| > 0 then
      var rev := Reverse(labels, h, radii);
      RatioInUnit(|rev| as real, |h.idx| as real);
      var ws := |rev| as real / |h.idx| as real;
      match mode
      case Loose => Supervised(LooseShare(labels, w), ws)
      case Strict => Supervised(StrictShareAsWritten(labels, w, rev), ws)
    else
      Supervised(0.0, 0.0)
  }

  lemma UnlabelledHood(y: seq<int>, idx: seq<nat>)
    requires forall j :: 0 <= j < |idx| ==> idx[j] < |y|
    ensures (forall j :: 0 <= j < |idx| ==> y[idx[j]] == 0) ==> |Where(Labelled(Gather(y, idx)))| == 0
  {
    var ixl := Where(Labelled(Gather(y, idx)));
    if |ixl| > 0 {
      assert Gather(y, idx)[ixl[0]] != 0;
    }
  }

  /** `(1 − Ws)·prior + Ws·Ss`, written as `prior + Ws·(Ss − prior)`: with Ws in
      [0, 1] it is a convex combination, so it lies between the prior and Ss, is
      the prior when Ws is 0 and Ss when Ws is 1, and stays in [0, 1] when the
      prior and Ss do. */
  function Blend(prior: real, sp: Supervised): (s: real)
    ensures s == (1.0 - sp.weight) * prior + sp.weight * sp.share
    ensures sp.weight == 0.0 ==> s == prior
    ensures sp.weight == 1.0 ==> s == sp.share
    ensures 0.0 <= sp.weight <= 1.0 && prior <= sp.share ==> prior <= s <= sp.share
    ensures 0.0 <= sp.weight <= 1.0 && sp.share <= prior ==> sp.share <= s <= prior
    ensures 0.0 <= sp.weight <= 1.0 && 0.0 <= prior && 0.0 <= sp.share ==> 0.0 <= s
    ensures 0.0 <= sp.weight <= 1.0 && 0.0 <= prior <= 1.0 && 0.0 <= sp.share <= 1.0 ==> s <= 1.0
  {
    var s := prior + sp.weight * (sp.share - prior);
    Between(prior, sp.share, sp.weight, s);
    s
  }

  /** Moving from a towards b by the fraction t in [0, 1] stays between them;
      r is the point reached. */
  lemma Between(a: real, b: real, t: real, r: real)
    requires r == a + t * (b - a)
    ensures r == (1.0 - t) * a + t * b
    ensures 0.0 <= t <= 1.0 && a <= b ==> a <= r <= b
    ensures 0.0 <= t <= 1.0 && b <= a ==> b <= r <= a
  {
    var d, u := b - a, 1.0 - t;
    assert r == b - u * d;
    assert r == u * a + t * b;
    if 0.0 <= t <= 1.0 {
      if a <= b {
        ProductNonNegative(t, d);
        ProductNonNegative(u, d);
      } else {
        ProductNonNegative(t, -d);
        ProductNonNegative(u, -d);
      }
    }
  }

  lemma ProductNonNegative(x: real, y: real)
    requires 0.0 <= x && 0.0 <= y
    ensures 0.0 <= x * y
  {
  }

  /** The posterior score of one target point. */
  function PointScore(h: Neighbourhood, prior: real, y: seq<int>, radii: seq<real>, mode: Supervision): (s: real)
    requires HoodFits(h, |y|) && |radii| == |y|
    ensures (forall j :: 0 <= j < |h.idx| ==> y[h.idx[j]] == 0) ==> s == prior
    ensures 0.0 <= prior ==> 0.0 <= s
    ensures mode == Loose && 0.0 <= prior <= 1.0 ==> 0.0 <= s <= 1.0
  {
    Blend(prior, SupervisedPart(h, y, radii, mode))
  }

  /** `y.any()` on the combined labels. */
  predicate AnyLabel(y: seq<int>)
  {
    exists j | 0 <= j < |y| :: y[j] != 0
  }

  /** The scores of the target points: the prior itself when no combined label is
      non-zero, the blended posterior of every point otherwise. */
  function Scores(g: Geometry, y: seq<int>, mode: Supervision): (r: seq<real>)
    requires Fits(g, |y|, |g.prior|)
    ensures |r| == |g.prior|
  {
    if !AnyLabel(y) then g.prior
    else
      var radii := Radii(g.kDist);
      seq(|g.prior|, i requires 0 <= i < |g.prior| => PointScore(g.hoods[i], g.prior[i], y, radii, mode))
  }

  /** The scorer on a combined set with labels `y`: both k+1 queries fail when the
      combined set has no more than k points. */
  function Detect(g: Geometry, y: seq<int>, k: nat, mode: Supervision): (r: Result<seq<real>>)
    requires k < |y| ==> Fits(g, |y|, |g.prior|)
    ensures r.Ok? <==> k < |y|
    ensures r.Ok? ==> r.value == Scores(g, y, mode)
  {
    if |y| < k + 1 then Err(TooFewPoints) else Ok(Scores(g, y, mode))
  }

  /** The unsupervised fast path: with no non-zero combined label every score is
      the prior. */
  lemma NoLabelsGivesPrior(g: Geometry, y: seq<int>, mode: Supervision)
    requires Fits(g, |y|, |g.prior|)
    requires forall j :: 0 <= j < |y| ==> y[j] == 0
    ensures Scores(g, y, mode) == g.prior
  {
  }

  /** A target point without a labelled neighbour in its radius keeps its prior,
      in either mode. */
  lemma UnlabelledHoodKeepsPrior(h: Neighbourhood, prior: real, y: seq<int>, radii: seq<real>, mode: Supervision)
    requires HoodFits(h, |y|) && |radii| == |y|
    requires forall j :: 0 <= j < |h.idx| ==> y[h.idx[j]] == 0
    ensures PointScore(h, prior, y, radii, mode) == prior
  {
  }

  /** With loose supervision every score lies in [0, 1] whenever every prior does. */
  lemma LooseScoresBounded(g: Geometry, y: seq<int>)
    requires Fits(g, |y|, |g.prior|)
    requires forall i :: 0 <= i < |g.prior| ==> 0.0 <= g.prior[i] <= 1.0
    ensures forall i :: 0 <= i < |g.prior| ==> 0.0 <= Scores(g, y, Loose)[i] <= 1.0
  {
  }

  /** In either mode no score is negative when no prior is. */
  lemma ScoresNonNegative(g: Geometry, y: seq<int>, mode: Supervision)
    requires Fits(g, |y|, |g.prior|)
    requires forall i :: 0 <= i < |g.prior| ==> 0.0 <= g.prior[i]
    ensures forall i :: 0 <= i < |g.prior| ==> 0.0 <= Scores(g, y, mode)[i]
  {
  }

  /** The strict share as written is not bounded by 1. Take two neighbours at
      distances 0 and 1, the first unlabelled and the second anomalous and a
      reverse neighbour: the program finds the anomalous reverse neighbour at
      position 0 of `rev = [1]` and divides the weight of neighbour 0, (1/tol)²,
      by that of neighbour 1, (1/(1+tol))². */
  lemma StrictShareAsWrittenExceedsOne(labels: seq<int>, w: seq<real>, rev: seq<nat>)
    requires labels == [0, 1] && w == Weights([0.0, 1.0]) && rev == [1]
    ensures StrictShareAsWritten(labels, w, rev) > 2.0
  {
    var mask := AnomalousAt(labels, rev);
    assert mask == [true];
    assert Where(mask) == [0] by { assert mask[..0] == []; }
    assert Gather(w, [0]) == [w[0]];
    assert Gather(w, rev) == [w[1]];
    assert Total([w[0]]) == w[0] by { assert [w[0]][..0] == []; }
    assert Total([w[1]]) == w[1] by { assert [w[1]][..0] == []; }
    InverseSquareAntitone(0.0, 1.0);
    var inv0, inv1 := 1.0 / Tol, 1.0 / (1.0 + Tol);
    assert w[0] == inv0 * inv0 && w[1] == inv1 * inv1;
    assert inv0 == 10000000000.0;
    assert 0.0 < inv1 < 1.0;
    assert w[1] < 1.0;
    assert w[0] > 2.0;
  }

  /** Consequently a strict-mode posterior can leave [0, 1]: with prior 0, one
      of two neighbours a reverse neighbour (Ws = 1/2) and a strict share above
      2, as in the example, the posterior exceeds 1. */
  lemma StrictScoreOfParts(h: Neighbourhood, y: seq<int>, radii: seq<real>)
    requires HoodFits(h, |y|) && |radii| == |y| && |h.idx| == 2
    requires |Where(Labelled(Gather(y, h.idx)))| > 0
    requires |Reverse(Gather(y, h.idx), h, radii)| == 1
    requires StrictShareAsWritten(Gather(y, h.idx), Weights(h.dist), Reverse(Gather(y, h.idx), h, radii)) > 2.0
    ensures PointScore(h, 0.0, y, radii, Strict) > 1.0
  {
    var labels := Gather(y, h.idx);
    var rev := Reverse(labels, h, radii);
    StrictPart(h, y, radii);
    HalfBlend(StrictShareAsWritten(labels, Weights(h.dist), rev), |rev|, |h.idx|);
  }

  /** In the example neighbourhood (neighbours 0 and 1 at distances 0 and 1,
      labels 0 and 1, both radii 1) only the anomalous neighbour 1 is a labelled
      reverse neighbour, so its strict share as written is the one
      `StrictShareAsWrittenExceedsOne` computes. */
  lemma StrictExampleReverse(labels: seq<int>, h: Neighbourhood, radii: seq<real>)
    requires h == Neighbourhood([0, 1], [0.0, 1.0]) && labels == [0, 1] && radii == [1.0, 1.0]
    ensures |Where(Labelled(labels))| > 0
    ensures Reverse(labels, h, radii) == [1]
  {
    WhereComplete(Labelled(labels), 1);
    var rev := Reverse(labels, h, radii);
    assert 1 in rev by {
      WhereComplete(Within(h, radii), 1);
      IntersectComplete(Where(Labelled(labels)), Where(Within(h, radii)), 2, 1);
    }
    assert forall p :: 0 <= p < |rev| ==> rev[p] == 1 by {
      forall p | 0 <= p < |rev|
        ensures rev[p] == 1
      {
        assert rev[p] < 2 && labels[rev[p]] != 0;
      }
    }
    OnlyElement(rev, 1);
  }

  /** An ascending sequence that contains `j` and nothing else is `[j]`. */
  lemma OnlyElement(r: seq<nat>, j: nat)
    requires Increasing(r) && j in r
    requires forall p :: 0 <= p < |r| ==> r[p] == j
    ensures r == [j]
  {
    IncreasingSpread(r);
  }

  lemma HalfBlend(ss: real, reverse: nat, n: nat)
    requires ss > 2.0 && reverse == 1 && n == 2
    ensures Blend(0.0, Supervised(ss, reverse as real / n as real)) > 1.0
  {
  }

  /** The strict supervised component once some neighbour is labelled. */
  lemma StrictPart(h: Neighbourhood, y: seq<int>, radii: seq<real>)
    requires HoodFits(h, |y|) && |radii| == |y|
    requires |Where(Labelled(Gather(y, h.idx)))| > 0
    ensures var labels := Gather(y, h.idx);
            var rev := Reverse(labels, h, radii);
            SupervisedPart(h, y, radii, Strict)
            == Supervised(StrictShareAsWritten(labels, Weights(h.dist), rev), |rev| as real / |h.idx| as real)
  {
  }

  /** The loose supervised component once some neighbour is labelled: the loose
      share of the labelled neighbours' weight, weighted by the fraction of the
      neighbourhood that are reverse neighbours (not all labelled neighbours). */
  lemma LoosePart(h: Neighbourhood, y: seq<int>, radii: seq<real>)
    requires HoodFits(h, |y|) && |radii| == |y|
    requires |Where(Labelled(Gather(y, h.idx)))| > 0
    ensures var labels := Gather(y, h.idx);
            var rev := Reverse(labels, h, radii);
            SupervisedPart(h, y, radii, Loose)
            == Supervised(LooseShare(labels, Weights(h.dist)), |rev| as real / |h.idx| as real)
  {
  }

  /** With the positions mapped back through `rev`, the same neighbourhood gets
      the share 1: its only reverse neighbour is anomalous. */
  lemma StrictShareOnSameExample(labels: seq<int>, w: seq<real>, rev: seq<nat>)
    requires labels == [0, 1] && w == Weights([0.0, 1.0]) && rev == [1]
    ensures StrictShare(labels, w, rev) == 1.0
  {
    var mask := AnomalousAt(labels, rev);
    assert mask == [true];
    assert Where(mask) == [0] by { assert mask[..0] == []; }
    assert Gather(rev, [0]) == rev;
    StrictShareParts(labels, w, rev);
    var reverse := Total(Gather(w, rev));
    assert StrictShare(labels, w, rev) == reverse / reverse;
  }
}
