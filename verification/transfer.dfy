/** LocIT's instance transfer (`_instance_transfer`): a training set for the
    transfer classifier is built from the target domain alone (one positive and
    one negative comparison feature per target point), every source point gets a
    comparison feature of its own, and the source points the classifier labels 1
    are the ones transferred.

    The BallTree queries, the mean/covariance computation, the shuffle and the
    classifier (scaling, grid search, SVC) are inputs: neighbour tables are rows
    of point indices ordered by distance, `stats` maps a list of row indices to
    the local statistics of those rows, and `classify` maps a training set and the
    source features to predicted labels. */
module Transfer {
  import opened Results
  import opened Indices
  import opened Features

  /** A neighbour table as BallTree.query returns it: `rows` rows of `width`
      columns, each entry the index of a point among `n`. */
  ghost predicate IsTable(t: seq<seq<nat>>, rows: nat, width: nat, n: nat)
  {
    && |t| == rows
    && (forall i :: 0 <= i < rows ==> |t[i]| == width)
    && (forall i, j :: 0 <= i < rows && 0 <= j < width ==> t[i][j] < n)
  }

  /** The shuffled `arange(n)`: n entries, each a point index. */
  ghost predicate IsShuffle(perm: seq<nat>, n: nat)
  {
    |perm| == n && forall p :: 0 <= p < n ==> perm[p] < n
  }

  /** Every statistic `f` produces has the dimensions of those `g` produces (all
      points share one dimension); `g` of the empty index list serves as the
      reference. Together with `StatsComparable(g, g)` it makes every statistic of
      `f` comparable with every statistic of `g`. */
  ghost predicate StatsComparable(f: seq<nat> -> LocalStats, g: seq<nat> -> LocalStats)
  {
    forall ix :: Comparable(f(ix), g([]))
  }

  predicate KnownSelection(mode: string)
  {
    mode == "random" || mode == "edge" || mode == "farthest"
  }

  /** The training loop over nt target points can run: column 1 exists, the mode
      is known, and for "edge" so is column psi+2. */
  predicate LoopRuns(nt: nat, psi: nat, mode: string)
  {
    2 <= nt && KnownSelection(mode) && (mode == "edge" ==> psi + 2 < nt)
  }

  /** The negative reference point of target point `i` (whose neighbour row is
      `row`): the i-th shuffled index for "random", column psi+2 of its row for
      "edge" (an IndexError when the row is shorter), the last column -- the
      farthest point -- for "farthest"; any other mode is a ValueError. A chosen
      reference is always a shuffled index or one of the row's entries. */
  function NegativeReference(mode: string, row: seq<nat>, perm: seq<nat>, i: nat, psi: nat): (r: Result<nat>)
    requires i < |perm| && 1 <= |row|
    ensures r.Ok? ==> r.value == perm[i] || r.value in row
    ensures mode == "random" ==> r == Ok(perm[i])
    ensures mode == "edge" ==> r == if psi + 2 < |row| then Ok(row[psi + 2]) else Err(IndexOutOfBounds)
    ensures mode == "farthest" ==> r == Ok(row[|row| - 1])
    ensures !KnownSelection(mode) ==> r == Err(InvalidSelection(mode))
  {
    match mode
    case "random" => Ok(perm[i])
    case "edge" => if psi + 2 < |row| then Ok(row[psi + 2]) else Err(IndexOutOfBounds)
    case "farthest" => Ok(row[|row| - 1])
    case _ => Err(InvalidSelection(mode))
  }

  /** On a table whose entries are point indices and a shuffle of them, the
      negative reference is a target point. */
  lemma NegativeReferenceInRange(t: seq<seq<nat>>, perm: seq<nat>, mode: string, psi: nat, i: nat)
    requires IsTable(t, |t|, |t|, |t|) && IsShuffle(perm, |t|) && i < |t|
    ensures NegativeReference(mode, t[i], perm, i, psi).Ok? ==>
              NegativeReference(mode, t[i], perm, i, psi).value < |t|
  {
    var r := NegativeReference(mode, t[i], perm, i, psi);
    if r.Ok? && r.value != perm[i] {
      var j :| 0 <= j < |t[i]| && t[i][j] == r.value;
    }
  }

  /** Statistics of the psi-neighbourhood of point `j`: columns 1..psi of its row
      (column 0 is the point itself). */
  function OwnStats(t: seq<seq<nat>>, stats: seq<nat> -> LocalStats, j: nat, psi: nat): (r: LocalStats)
    requires j < |t|
    ensures psi < |t[j]| ==> r == stats(t[j][1..psi + 1])
    ensures 1 <= |t[j]| <= psi ==> r == stats(t[j][1..])
    ensures |t[j]| <= 1 ==> r == stats([])
  {
    assert 1 <= |t[j]| <= psi ==> Slice(t[j], 1, psi + 1) == t[j][1..];
    stats(Slice(t[j], 1, psi + 1))
  }

  /** Statistics of the shorter neighbourhood used for a negative reference:
      columns 1..psi-1 of its row. */
  function ReducedStats(t: seq<seq<nat>>, stats: seq<nat> -> LocalStats, j: nat, psi: nat): (r: LocalStats)
    requires j < |t|
    ensures 1 <= psi <= |t[j]| ==> r == stats(t[j][1..psi])
    ensures 1 <= |t[j]| < psi ==> r == stats(t[j][1..])
    ensures psi <= 1 || |t[j]| <= 1 ==> r == stats([])
  {
    assert 1 <= |t[j]| < psi ==> Slice(t[j], 1, psi) == t[j][1..];
    stats(Slice(t[j], 1, psi))
  }

  /** The positive and the negative training feature of target point `i`. The
      positive compares the point with its nearest neighbour (column 1), the
      negative with the reference chosen by the mode. Column 1 is read before the
      mode is looked at, so a one-point table fails with an IndexError whatever
      the mode. */
  function TrainingPair(t: seq<seq<nat>>, perm: seq<nat>, mode: string, psi: nat,
                        stats: seq<nat> -> LocalStats, norm: seq<real> -> real, i: nat)
    : (r: Result<(Feature, Feature)>)
    requires IsTable(t, |t|, |t|, |t|) && IsShuffle(perm, |t|) && i < |t|
    requires StatsComparable(stats, stats) && IsNorm(norm)
    ensures r.Ok? <==> LoopRuns(|t|, psi, mode)
    ensures |t| < 2 ==> r == Err(IndexOutOfBounds)
    ensures 2 <= |t| && !KnownSelection(mode) ==> r == Err(InvalidSelection(mode))
    ensures r.Ok? ==> r.value.0 == Compare(OwnStats(t, stats, i, psi), OwnStats(t, stats, t[i][1], psi), norm)
    ensures r.Ok? ==>
              var neg := NegativeReference(mode, t[i], perm, i, psi);
              neg.Ok? && neg.value < |t| &&
              r.value.1 == Compare(OwnStats(t, stats, i, psi), ReducedStats(t, stats, neg.value, psi), norm)
  {
    var row := t[i];
    var own := OwnStats(t, stats, i, psi);
    if |row| < 2 then Err(IndexOutOfBounds)
    else
      var nearest := row[1];
      var near := OwnStats(t, stats, nearest, psi);
      NegativeReferenceInRange(t, perm, mode, psi, i);
      var far :- NegativeReference(mode, row, perm, i, psi);
      Ok((Compare(own, near, norm), Compare(own, ReducedStats(t, stats, far, psi), norm)))
  }

  /** The transfer classifier's training set: feature rows and their labels. */
  datatype TrainingSet = TrainingSet(features: seq<Feature>, labels: seq<real>)

  /** Row 2i holds the positive feature of pair i, labelled 1; row 2i+1 its
      negative feature, labelled 0. */
  function Interleave(pairs: seq<(Feature, Feature)>): (ts: TrainingSet)
    ensures |ts.features| == 2 * |pairs| && |ts.labels| == 2 * |pairs|
    ensures forall i :: 0 <= i < |pairs| ==>
              && ts.features[2 * i] == pairs[i].0 && ts.labels[2 * i] == 1.0
              && ts.features[2 * i + 1] == pairs[i].1 && ts.labels[2 * i + 1] == 0.0
  {
    if |pairs| == 0 then TrainingSet([], [])
    else
      var front := Interleave(pairs[..|pairs| - 1]);
      var last := pairs[|pairs| - 1];
      TrainingSet(front.features + [last.0, last.1], front.labels + [1.0, 0.0])
  }

  /** The training set built from the target neighbour table `t` (the query of
      the target set against itself with k = nt, so rows of width nt). It has
      2·nt rows alternating positive (1) and negative (0), or fails as the first
      target point fails. */
  function BuildTrainingSet(t: seq<seq<nat>>, perm: seq<nat>, mode: string, psi: nat,
                            stats: seq<nat> -> LocalStats, norm: seq<real> -> real)
    : (r: Result<TrainingSet>)
    requires IsTable(t, |t|, |t|, |t|) && IsShuffle(perm, |t|)
    requires StatsComparable(stats, stats) && IsNorm(norm)
    ensures r.Ok? <==> |t| == 0 || LoopRuns(|t|, psi, mode)
    ensures |t| == 1 ==> r == Err(IndexOutOfBounds)
    ensures 2 <= |t| && !KnownSelection(mode) ==> r == Err(InvalidSelection(mode))
    ensures 2 <= |t| && mode == "edge" && |t| <= psi + 2 ==> r == Err(IndexOutOfBounds)
    ensures r.Ok? ==> |r.value.features| == 2 * |t| && |r.value.labels| == 2 * |t|
    ensures r.Ok? && 0 < |t| ==> r.value.labels[0] == 1.0 && r.value.labels[1] == 0.0
    ensures r.Ok? ==> forall i :: 0 <= i < |t| ==>
              && r.value.labels[2 * i] == 1.0
              && r.value.labels[2 * i + 1] == 0.0
              && TrainingPair(t, perm, mode, psi, stats, norm, i)
                 == Ok((r.value.features[2 * i], r.value.features[2 * i + 1]))
  {
    var rs := seq(|t|, i requires 0 <= i < |t| => TrainingPair(t, perm, mode, psi, stats, norm, i));
    assert |t| > 0 ==> rs[0] == TrainingPair(t, perm, mode, psi, stats, norm, 0);
    var pairs :- Collect(rs);
    Ok(Interleave(pairs))
  }

  /** Both classes are present whenever the target set is non-empty, so the
      classifier always sees a positive and a negative example. */
  lemma BothClassesPresent(t: seq<seq<nat>>, perm: seq<nat>, mode: string, psi: nat,
                           stats: seq<nat> -> LocalStats, norm: seq<real> -> real, ts: TrainingSet)
    requires IsTable(t, |t|, |t|, |t|) && IsShuffle(perm, |t|)
    requires StatsComparable(stats, stats) && IsNorm(norm)
    requires BuildTrainingSet(t, perm, mode, psi, stats, norm) == Ok(ts) && 1 <= |t|
    ensures 1.0 in ts.labels && 0.0 in ts.labels
  {
    assert ts.labels[0] == 1.0 && ts.labels[1] == 0.0;
  }

  /** The feature of every source point: its own psi-neighbourhood in the source
      (columns 1..psi of the source self-query, itself excluded) as reference,
      against its psi nearest target points (columns 0..psi-1 of the query of the
      source points against the target set). */
  function SourceFeatures(src: seq<seq<nat>>, cross: seq<seq<nat>>, psi: nat,
                          sstats: seq<nat> -> LocalStats, tstats: seq<nat> -> LocalStats,
                          norm: seq<real> -> real): (f: seq<Feature>)
    requires |src| == |cross|
    requires StatsComparable(sstats, tstats) && StatsComparable(tstats, tstats) && IsNorm(norm)
    ensures |f| == |src|
    ensures forall i :: 0 <= i < |src| ==>
              f[i] == Compare(sstats(Slice(src[i], 1, psi + 1)), tstats(Slice(cross[i], 0, psi)), norm)
  {
    seq(|src|, i requires 0 <= i < |src| =>
      Compare(sstats(Slice(src[i], 1, psi + 1)), tstats(Slice(cross[i], 0, psi)), norm))
  }

  /** A source point whose neighbourhood statistics match those of its nearest
      target points gets the feature [0, 0], the feature of a perfect match. */
  lemma MatchingSourceFeature(src: seq<seq<nat>>, cross: seq<seq<nat>>, psi: nat,
                              sstats: seq<nat> -> LocalStats, tstats: seq<nat> -> LocalStats,
                              norm: seq<real> -> real, i: nat)
    requires |src| == |cross| && i < |src|
    requires StatsComparable(sstats, tstats) && StatsComparable(tstats, tstats) && IsNorm(norm)
    requires sstats(Slice(src[i], 1, psi + 1)) == tstats(Slice(cross[i], 0, psi))
    ensures SourceFeatures(src, cross, psi, sstats, tstats, norm)[i] == Feature(0.0, 0.0)
  {
    CompareSelf(sstats(Slice(src[i], 1, psi + 1)), norm);
  }

  /** `np.where(predictions == 1.0)[0]`: the transferred source points are the
      positions predicted 1, in ascending order; an empty selection is allowed. */
  function SelectTransferred(pred: seq<real>): (ixt: seq<nat>)
    ensures Increasing(ixt) && |ixt| <= |pred|
    ensures forall p :: 0 <= p < |ixt| ==> ixt[p] < |pred| && pred[ixt[p]] == 1.0
  {
    Where(PredictedOne(pred))
  }

  function PredictedOne(pred: seq<real>): (b: seq<bool>)
    ensures |b| == |pred| && forall j :: 0 <= j < |pred| ==> (b[j] <==> pred[j] == 1.0)
  {
    seq(|pred|, j requires 0 <= j < |pred| => pred[j] == 1.0)
  }

  /** Every source point predicted 1 is transferred. */
  lemma TransferredComplete(pred: seq<real>, j: nat)
    requires j < |pred| && pred[j] == 1.0
    ensures j in SelectTransferred(pred)
  {
    WhereComplete(PredictedOne(pred), j);
  }

  /** What the library calls of one instance transfer produce. */
  datatype TransferInputs = TransferInputs(
    targetTable: seq<seq<nat>>,                      // target set against itself, k = nt
    perm: seq<nat>,                                  // shuffled arange(nt)
    sourceTable: seq<seq<nat>>,                      // source set against itself, k = psi + 1
    crossTable: seq<seq<nat>>,                       // source points against the target set, k = psi + 1
    sourceStats: seq<nat> -> LocalStats,             // mean and covariance of source rows
    targetStats: seq<nat> -> LocalStats,             // mean and covariance of target rows
    norm: seq<real> -> real,
    classify: (TrainingSet, seq<Feature>) -> seq<real>) // scale, fit on the training set, predict

  /** The shapes the library guarantees for `ns` source and `nt` target points;
      the two psi+1 queries only have a shape when they succeed. */
  ghost predicate WellFormed(inp: TransferInputs, ns: nat, nt: nat, psi: nat)
  {
    && IsTable(inp.targetTable, nt, nt, nt)
    && IsShuffle(inp.perm, nt)
    && (psi + 1 <= ns ==> IsTable(inp.sourceTable, ns, psi + 1, ns))
    && (psi + 1 <= nt ==> IsTable(inp.crossTable, ns, psi + 1, nt))
    && StatsComparable(inp.targetStats, inp.targetStats)
    && StatsComparable(inp.sourceStats, inp.targetStats)
    && IsNorm(inp.norm)
    && (forall ts, fs :: |inp.classify(ts, fs)| == |fs|)
  }

  /** The number of cross-validation folds of the classifier's grid search. Its
      stratified split rejects a training set in which every class has fewer
      rows than folds; the training set holds nt rows of each class. */
  const Folds: nat := 3

  /** The indices of the source points to transfer, ascending and below ns. The
      training loop runs first, then the grid search, which needs at least
      `Folds` target points, then the two queries with k = psi+1, which fail
      when either domain has no more than psi points. */
  function InstanceTransfer(inp: TransferInputs, ns: nat, nt: nat, psi: nat, mode: string)
    : (r: Result<seq<nat>>)
    requires WellFormed(inp, ns, nt, psi)
    ensures BuildTrainingSet(inp.targetTable, inp.perm, mode, psi, inp.targetStats, inp.norm).Ok? && nt < Folds
            ==> r == Err(TooFewFolds)
    ensures (&& BuildTrainingSet(inp.targetTable, inp.perm, mode, psi, inp.targetStats, inp.norm).Ok?
             && Folds <= nt && (ns <= psi || nt <= psi)) ==> r == Err(TooFewPoints)
    ensures r.Ok? <==>
              BuildTrainingSet(inp.targetTable, inp.perm, mode, psi, inp.targetStats, inp.norm).Ok?
              && Folds <= nt && psi < ns && psi < nt
    ensures r.Ok? ==>
              r.value == SelectTransferred(inp.classify(
                BuildTrainingSet(inp.targetTable, inp.perm, mode, psi, inp.targetStats, inp.norm).value,
                SourceFeatures(inp.sourceTable, inp.crossTable, psi, inp.sourceStats, inp.targetStats, inp.norm)))
    ensures r.Ok? ==> Increasing(r.value) && |r.value| <= ns
    ensures r.Ok? ==> forall p :: 0 <= p < |r.value| ==> r.value[p] < ns
  {
    var train :- BuildTrainingSet(inp.targetTable, inp.perm, mode, psi, inp.targetStats, inp.norm);
    if nt < Folds then Err(TooFewFolds)
    else if ns < psi + 1 || nt < psi + 1 then Err(TooFewPoints)
    else
      var feats := SourceFeatures(inp.sourceTable, inp.crossTable, psi, inp.sourceStats, inp.targetStats, inp.norm);
      var pred := inp.classify(train, feats);
      Ok(SelectTransferred(pred))
  }
}
