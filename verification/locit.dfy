/** `apply_LocIT`: validate both domains, optionally standardise them, transfer
    the source points the transfer classifier accepts, append the target set to
    them with the transferred labels, estimate the contamination from the source
    labels, and score the target points with SSkNNO on the combined set.

    Every library call is a field of an `Environment`: the standard scaler, the
    BallTree k-nearest-neighbour query, the shuffle, the local mean/covariance,
    the norm, the transfer classifier and, for the combined set, the geometry the
    SSkNNO queries and squashing function produce. `Sound` states the shapes and
    ranges the library guarantees and nothing more. */
module LocIT {
  import opened Results
  import opened Indices
  import opened Labels
  import opened Features
  import opened Transfer
  import opened Ssknno

  /** One data point: its feature values. */
  type Row = seq<real>

  /** The keyword arguments of `apply_LocIT`. */
  datatype Config = Config(psi: nat, trainSelection: string, scaling: bool, k: nat, supervision: Supervision)

  datatype Environment = Environment(
    standardize: seq<Row> -> seq<Row>,                  // StandardScaler().fit_transform
    query: (seq<Row>, seq<Row>, nat) -> seq<seq<nat>>,  // BallTree(X).query(Q, k): indices into X, nearest first
    shuffle: nat -> seq<nat>,                           // a shuffled arange(n)
    dim: nat,                                           // the number of features
    stats: (seq<Row>, seq<nat>) -> LocalStats,          // mean and covariance of the rows at the given indices
    norm: seq<real> -> real,                            // numpy.linalg.norm
    classify: (TrainingSet, seq<Feature>) -> seq<real>, // scale, grid-search the SVC, predict
    geometry: (seq<Row>, seq<Row>, real, nat) -> Geometry) // SSkNNO queries and prior for (X, Xt, c, k)

  /** What the library guarantees of its results. A query for k neighbours
      among at least k points returns one row of k indices per query point; the
      squashing function maps into [0, 1]. */
  ghost predicate Sound(env: Environment)
  {
    && (forall x :: |env.standardize(x)| == |x|)
    && (forall x, q, k: nat :: k <= |x| ==> IsTable(env.query(x, q, k), |q|, k, |x|))
    && (forall n :: IsShuffle(env.shuffle(n), n))
    && (forall x, ix :: |env.stats(x, ix).mean| == env.dim && |env.stats(x, ix).cov| == env.dim * env.dim)
    && IsNorm(env.norm)
    && (forall ts, fs :: |env.classify(ts, fs)| == |fs|)
    && (forall x, q, c, k: nat :: k < |x| ==> Fits(env.geometry(x, q, c, k), |x|, |q|))
    && (forall x, q, c, k, i :: 0 <= i < |env.geometry(x, q, c, k).prior| ==>
          0.0 <= env.geometry(x, q, c, k).prior[i] <= 1.0)
  }

  /** The library results `_instance_transfer` works with: the target set queried
      against itself for all nt neighbours, the shuffle of the target indices, the
      source set against itself and against the target set for psi+1 neighbours. */
  function TransferInputsOf(env: Environment, xs: seq<Row>, xt: seq<Row>, psi: nat): TransferInputs
  {
    TransferInputs(
      env.query(xt, xt, |xt|),
      env.shuffle(|xt|),
      env.query(xs, xs, psi + 1),
      env.query(xt, xs, psi + 1),
      ix => env.stats(xs, ix),
      ix => env.stats(xt, ix),
      env.norm,
      env.classify)
  }

  /** A sound environment gives `_instance_transfer` well-shaped inputs. */
  lemma SoundTransferInputs(env: Environment, xs: seq<Row>, xt: seq<Row>, psi: nat)
    requires Sound(env)
    ensures WellFormed(TransferInputsOf(env, xs, xt, psi), |xs|, |xt|, psi)
  {
    var inp := TransferInputsOf(env, xs, xt, psi);
    assert IsTable(inp.targetTable, |xt|, |xt|, |xt|);
    forall ix
      ensures Comparable(inp.targetStats(ix), inp.targetStats([]))
      ensures Comparable(inp.sourceStats(ix), inp.targetStats([]))
    {
      assert inp.targetStats(ix) == env.stats(xt, ix) && inp.targetStats([]) == env.stats(xt, []);
      assert inp.sourceStats(ix) == env.stats(xs, ix);
    }
  }

  /** `ys = np.zeros(n)` when the labels are omitted. */
  function DefaultLabels(y: Option<seq<real>>, n: nat): (r: seq<real>)
    ensures y.Some? ==> r == y.value
    ensures y.None? ==> |r| == n && forall j :: 0 <= j < n ==> r[j] == 0.0
  {
    match y
    case Some(v) => v
    case None => seq(n, j => 0.0)
  }

  /** The part of `check_X_y` this model keeps: a set of points must not be
      empty, and there must be one label per point. */
  function CheckXY(x: seq<Row>, y: seq<real>): (r: Result<seq<real>>)
    ensures r.Ok? <==> |x| > 0 && |y| == |x|
    ensures |x| == 0 ==> r == Err(EmptyPointSet)
    ensures |x| > 0 && |y| != |x| ==> r == Err(InconsistentLength)
    ensures r.Ok? ==> r.value == y
  {
    if |x| == 0 then Err(EmptyPointSet)
    else if |y| != |x| then Err(InconsistentLength)
    else Ok(y)
  }

  /** The points as the transfer sees them: standardised when scaling is on. */
  function Scaled(cfg: Config, env: Environment, x: seq<Row>): (r: seq<Row>)
    requires Sound(env)
    ensures |r| == |x|
    ensures !cfg.scaling ==> r == x
  {
    if cfg.scaling then env.standardize(x) else x
  }

  /** The combined set and its integer labels. */
  datatype Combined = Combined(rows: seq<Row>, labels: seq<int>)

  /** `y[:len(b)] = b` on an integer array. */
  function AssignPrefix(a: seq<int>, b: seq<int>): (r: seq<int>)
    requires |b| <= |a|
    ensures |r| == |a|
    ensures forall p :: 0 <= p < |b| ==> r[p] == b[p]
    ensures forall p :: |b| <= p < |a| ==> r[p] == a[p]
  {
    b + a[|b|..]
  }

  /** Each label cast to the integer array's type. */
  function TruncAll(ys: seq<real>): (r: seq<int>)
    ensures |r| == |ys| && forall j :: 0 <= j < |ys| ==> r[j] == Trunc(ys[j])
  {
    seq(|ys|, j requires 0 <= j < |ys| => Trunc(ys[j]))
  }

  /** The transferred source points stacked on top of the target points; the
      labels start as integer zeros and the transferred source labels, cast to
      int, are written over the first |ixt| of them. */
  function Combine(xs: seq<Row>, ys: seq<real>, ixt: seq<nat>, xt: seq<Row>): (c: Combined)
    requires |ys| == |xs| && forall p :: 0 <= p < |ixt| ==> ixt[p] < |xs|
    ensures |c.rows| == |c.labels| == |ixt| + |xt|
    ensures forall p :: 0 <= p < |ixt| ==> c.rows[p] == xs[ixt[p]] && c.labels[p] == Trunc(ys[ixt[p]])
    ensures forall q :: 0 <= q < |xt| ==> c.rows[|ixt| + q] == xt[q] && c.labels[|ixt| + q] == 0
  {
    var zeros := seq(|ixt| + |xt|, j => 0);
    Combined(Gather(xs, ixt) + xt, AssignPrefix(zeros, TruncAll(Gather(ys, ixt))))
  }

  /** A combined label is non-zero exactly when it belongs to a transferred source
      point whose label has magnitude at least 1. */
  lemma CombinedLabelled(xs: seq<Row>, ys: seq<real>, ixt: seq<nat>, xt: seq<Row>)
    requires |ys| == |xs| && forall p :: 0 <= p < |ixt| ==> ixt[p] < |xs|
    ensures AnyLabel(Combine(xs, ys, ixt, xt).labels)
            <==> exists p :: 0 <= p < |ixt| && (ys[ixt[p]] <= -1.0 || 1.0 <= ys[ixt[p]])
  {
    var c := Combine(xs, ys, ixt, xt);
    if AnyLabel(c.labels) {
      var j :| 0 <= j < |c.labels| && c.labels[j] != 0;
      assert j < |ixt|;
      TruncLabelled(ys[ixt[j]]);
    }
    if exists p :: 0 <= p < |ixt| && (ys[ixt[p]] <= -1.0 || 1.0 <= ys[ixt[p]]) {
      var p :| 0 <= p < |ixt| && (ys[ixt[p]] <= -1.0 || 1.0 <= ys[ixt[p]]);
      TruncLabelled(ys[ixt[p]]);
      assert c.labels[p] != 0;
    }
  }

  /** Both domains pass validation. */
  ghost predicate Validated(xs: seq<Row>, xt: seq<Row>, ys: Option<seq<real>>, yt: Option<seq<real>>)
  {
    && CheckXY(xs, DefaultLabels(ys, |xs|)).Ok?
    && CheckXY(xt, DefaultLabels(yt, |xt|)).Ok?
  }

  /** The source points the classifier predicts 1 for: it is fitted on the
      training set built from the (scaled) target domain alone and applied to
      the features of the (scaled) source points. Defined once the training loop
      and both psi+1 queries succeed. */
  function ClassifierSelection(xs: seq<Row>, xt: seq<Row>, cfg: Config, env: Environment): (ixt: seq<nat>)
    requires Sound(env) && LoopRuns(|xt|, cfg.psi, cfg.trainSelection)
    requires cfg.psi < |xs| && cfg.psi < |xt|
    ensures Increasing(ixt) && forall p :: 0 <= p < |ixt| ==> ixt[p] < |xs|
  {
    var xs1 := Scaled(cfg, env, xs);
    var xt1 := Scaled(cfg, env, xt);
    SoundTransferInputs(env, xs1, xt1, cfg.psi);
    var inp := TransferInputsOf(env, xs1, xt1, cfg.psi);
    var train := BuildTrainingSet(inp.targetTable, inp.perm, cfg.trainSelection, cfg.psi, inp.targetStats, inp.norm);
    var feats := SourceFeatures(inp.sourceTable, inp.crossTable, cfg.psi, inp.sourceStats, inp.targetStats, inp.norm);
    SelectTransferred(inp.classify(train.value, feats))
  }

  /** The source points `_instance_transfer` selects from the (scaled) domains.
      The training loop fails first: with a single target point there is no
      nearest-neighbour column, an unknown mode is rejected, and "edge" needs a
      column psi+2. The grid search then needs `Folds` rows of each class, so
      `Folds` target points; only then do the two psi+1 queries need more than
      psi points in each domain. */
  function Transferred(xs: seq<Row>, xt: seq<Row>, cfg: Config, env: Environment): (r: Result<seq<nat>>)
    requires Sound(env) && |xt| > 0
    ensures |xt| == 1 ==> r == Err(IndexOutOfBounds)
    ensures 2 <= |xt| && !KnownSelection(cfg.trainSelection) ==> r == Err(InvalidSelection(cfg.trainSelection))
    ensures LoopRuns(|xt|, cfg.psi, cfg.trainSelection) && |xt| < Folds ==> r == Err(TooFewFolds)
    ensures (&& LoopRuns(|xt|, cfg.psi, cfg.trainSelection) && Folds <= |xt|
             && (|xs| <= cfg.psi || |xt| <= cfg.psi)) ==> r == Err(TooFewPoints)
    ensures r.Ok? <==> (&& LoopRuns(|xt|, cfg.psi, cfg.trainSelection) && Folds <= |xt|
                        && cfg.psi < |xs| && cfg.psi < |xt|)
    ensures r.Ok? ==> r.value == ClassifierSelection(xs, xt, cfg, env)
    ensures r.Ok? ==> Increasing(r.value) && |r.value| <= |xs|
    ensures r.Ok? ==> forall p :: 0 <= p < |r.value| ==> r.value[p] < |xs|
  {
    var xs1 := Scaled(cfg, env, xs);
    var xt1 := Scaled(cfg, env, xt);
    SoundTransferInputs(env, xs1, xt1, cfg.psi);
    InstanceTransfer(TransferInputsOf(env, xs1, xt1, cfg.psi), |xs1|, |xt1|, cfg.psi, cfg.trainSelection)
  }

  /** The scores SSkNNO gives the target points once `ixt` is transferred. Both
      k+1 queries need more than k points in the combined set; every score is
      non-negative, and with loose supervision at most 1. */
  function ScoresAfter(xs: seq<Row>, xt: seq<Row>, ys: seq<real>, ixt: seq<nat>, cfg: Config, env: Environment)
    : (r: Result<seq<real>>)
    requires Sound(env)
    requires |ys| == |xs| && forall p :: 0 <= p < |ixt| ==> ixt[p] < |xs|
    ensures r.Ok? <==> cfg.k < |ixt| + |xt|
    ensures r.Ok? ==> |r.value| == |xt| && forall i :: 0 <= i < |xt| ==> 0.0 <= r.value[i]
    ensures r.Ok? && cfg.supervision == Loose ==> forall i :: 0 <= i < |xt| ==> r.value[i] <= 1.0
  {
    var combo := Combine(xs, ys, ixt, xt);
    var g := env.geometry(combo.rows, xt, Contamination(ys), cfg.k);
    ScoresInRange(g, combo.labels, cfg.k, cfg.supervision);
    Detect(g, combo.labels, cfg.k, cfg.supervision)
  }

  /** LocIT + SSkNNO: one anomaly score per target point. */
  function ApplyLocIT(xs: seq<Row>, xt: seq<Row>, ys: Option<seq<real>>, yt: Option<seq<real>>,
                      cfg: Config, env: Environment): (r: Result<seq<real>>)
    requires Sound(env)
    ensures |xs| == 0 ==> r == Err(EmptyPointSet)
    ensures |xs| > 0 && ys.Some? && |ys.value| != |xs| ==> r == Err(InconsistentLength)
    ensures CheckXY(xs, DefaultLabels(ys, |xs|)).Ok? && |xt| == 0 ==> r == Err(EmptyPointSet)
    ensures (CheckXY(xs, DefaultLabels(ys, |xs|)).Ok? && |xt| > 0 && yt.Some? && |yt.value| != |xt|)
            ==> r == Err(InconsistentLength)
    ensures Validated(xs, xt, ys, yt) && |xt| == 1 ==> r == Err(IndexOutOfBounds)
    ensures (Validated(xs, xt, ys, yt) && 2 <= |xt| && !KnownSelection(cfg.trainSelection))
            ==> r == Err(InvalidSelection(cfg.trainSelection))
    ensures (&& Validated(xs, xt, ys, yt) && LoopRuns(|xt|, cfg.psi, cfg.trainSelection)
             && |xt| < Folds) ==> r == Err(TooFewFolds)
    ensures (&& Validated(xs, xt, ys, yt) && LoopRuns(|xt|, cfg.psi, cfg.trainSelection) && Folds <= |xt|
             && (|xs| <= cfg.psi || |xt| <= cfg.psi)) ==> r == Err(TooFewPoints)
    ensures (&& Validated(xs, xt, ys, yt) && LoopRuns(|xt|, cfg.psi, cfg.trainSelection) && Folds <= |xt|
             && cfg.psi < |xs| && cfg.psi < |xt| && cfg.k < |xt|) ==> r.Ok?
    ensures r.Ok? ==> (&& Validated(xs, xt, ys, yt) && LoopRuns(|xt|, cfg.psi, cfg.trainSelection)
                       && Folds <= |xt| && cfg.psi < |xs| && cfg.psi < |xt| && cfg.k < |xs| + |xt|)
    ensures r.Ok? ==> |r.value| == |xt| && forall i :: 0 <= i < |xt| ==> 0.0 <= r.value[i]
    ensures r.Ok? && cfg.supervision == Loose ==> forall i :: 0 <= i < |xt| ==> r.value[i] <= 1.0
  {
    var ys1 :- CheckXY(xs, DefaultLabels(ys, |xs|));
    var _ :- CheckXY(xt, DefaultLabels(yt, |xt|));
    var ixt :- Transferred(xs, xt, cfg, env);
    ScoresAfter(Scaled(cfg, env, xs), Scaled(cfg, env, xt), ys1, ixt, cfg, env)
  }

  /** A successful run is SSkNNO applied to the target set combined with exactly
      the source points the transfer classifier predicts 1 for. */
  lemma ScoresOfTransferredSubset(xs: seq<Row>, xt: seq<Row>, ys: Option<seq<real>>, yt: Option<seq<real>>,
                                  cfg: Config, env: Environment)
    requires Sound(env)
    requires ApplyLocIT(xs, xt, ys, yt, cfg, env).Ok?
    ensures ApplyLocIT(xs, xt, ys, yt, cfg, env)
            == ScoresAfter(Scaled(cfg, env, xs), Scaled(cfg, env, xt),
                           DefaultLabels(ys, |xs|), ClassifierSelection(xs, xt, cfg, env), cfg, env)
  {
  }

  /** The bounds SSkNNO's scores inherit from a prior in [0, 1]. */
  lemma ScoresInRange(g: Geometry, y: seq<int>, k: nat, mode: Supervision)
    requires k < |y| ==> Fits(g, |y|, |g.prior|)
    requires forall i :: 0 <= i < |g.prior| ==> 0.0 <= g.prior[i] <= 1.0
    ensures Detect(g, y, k, mode).Ok? ==> |Detect(g, y, k, mode).value| == |g.prior|
    ensures Detect(g, y, k, mode).Ok? ==> forall i :: 0 <= i < |g.prior| ==> 0.0 <= Detect(g, y, k, mode).value[i]
    ensures Detect(g, y, k, mode).Ok? && mode == Loose ==>
              forall i :: 0 <= i < |g.prior| ==> Detect(g, y, k, mode).value[i] <= 1.0
  {
    if k < |y| {
      ScoresNonNegative(g, y, mode);
      if mode == Loose {
        LooseScoresBounded(g, y);
      }
    }
  }

  /** The target labels are only validated: any two valid label vectors for the
      target set give the same result. */
  lemma TargetLabelsIgnored(xs: seq<Row>, xt: seq<Row>, ys: Option<seq<real>>, yt1: seq<real>, yt2: seq<real>,
                            cfg: Config, env: Environment)
    requires Sound(env)
    requires |yt1| == |xt| && |yt2| == |xt|
    ensures ApplyLocIT(xs, xt, ys, Some(yt1), cfg, env) == ApplyLocIT(xs, xt, ys, Some(yt2), cfg, env)
    ensures ApplyLocIT(xs, xt, ys, Some(yt1), cfg, env) == ApplyLocIT(xs, xt, ys, None, cfg, env)
  {
  }

  /** Without source labels the detector is unsupervised: the contamination
      estimate is 0.1, no combined label is set, and every score is the prior. */
  lemma UnlabelledSourceGivesPrior(xs: seq<Row>, ys: seq<real>, ixt: seq<nat>, xt: seq<Row>, cfg: Config, env: Environment)
    requires Sound(env)
    requires |ys| == |xs| && forall j :: 0 <= j < |ys| ==> ys[j] == 0.0
    requires forall p :: 0 <= p < |ixt| ==> ixt[p] < |xs|
    ensures var combo := Combine(xs, ys, ixt, xt);
            ScoresAfter(xs, xt, ys, ixt, cfg, env).Ok? ==>
              ScoresAfter(xs, xt, ys, ixt, cfg, env).value == env.geometry(combo.rows, xt, 0.1, cfg.k).prior
  {
    UnlabelledContamination(ys);
    var combo := Combine(xs, ys, ixt, xt);
    CombinedLabelled(xs, ys, ixt, xt);
    if ScoresAfter(xs, xt, ys, ixt, cfg, env).Ok? {
      assert !AnyLabel(combo.labels);
      NoLabelsGivesPrior(env.geometry(combo.rows, xt, 0.1, cfg.k), combo.labels, cfg.supervision);
    }
  }

  /** Transferring nothing leaves the target set alone, unlabelled. */
  lemma EmptyTransfer(xs: seq<Row>, ys: seq<real>, xt: seq<Row>)
    requires |ys| == |xs|
    ensures Combine(xs, ys, [], xt).rows == xt
    ensures forall q :: 0 <= q < |xt| ==> Combine(xs, ys, [], xt).labels[q] == 0
  {
    assert Combine(xs, ys, [], xt).rows == [] + xt;
  }
}
