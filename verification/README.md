# LocIT + SSkNNO in Dafny

This project models the decision logic of LocIT, an instance-transfer method for
anomaly detection, together with SSkNNO, the semi-supervised k-nearest-neighbour
detector that scores the target domain after the transfer. Everything modelled
lives in `models/locit.py`. The model covers four parts:

- **`apply_LocIT`.** Validate the source and target sets, optionally standardise them, and transfer source points. Then stack the transferred source points, with their labels cast to int, on top of the target points. Finally estimate the contamination from the source labels and score the target points.
- **`_instance_transfer`.** Build the transfer classifier's training set from the target domain alone. For every target point this is one positive row (against its nearest neighbour) and one negative row (against a reference chosen by `train_selection`). Then compute one comparison feature per source point, and return the source points the classifier labels 1.
- **The comparison feature.** For two local statistics it is `[‖μa − μb‖, ‖Ca − Cb‖ / (‖Ca‖ + tol)]`.
- **`_ssknno_anomaly_detection`.** Return the prior unchanged when no combined label is set. Otherwise blend each target point's prior with a supervised share, computed from the labelled neighbours inside its radius and weighted `1/(d + tol)²`. The supervision weight is the fraction of the neighbourhood made of labelled reverse neighbours.

Library calls are inputs, not code:

- the BallTree queries;
- StandardScaler;
- SVC with grid search;
- the mean and covariance;
- the norm;
- the shuffle;
- the squashing prior.

`LocIT.Environment` bundles them as functions. `LocIT.Sound` states what the library guarantees of them:

- shapes of the neighbour tables;
- permutation ranges;
- dimensions of the statistics;
- a norm that is non-negative and 0 on zero vectors;
- one prediction per source feature;
- a prior in [0, 1].

Numpy is modelled explicitly where its semantics matter:

- `np.where` is `Indices.Where`;
- fancy indexing is `Indices.Gather`;
- clamping slices are `Indices.Slice`;
- `intersect1d` is `Indices.Intersect`;
- the float-to-int cast into `y_combo` truncates toward zero (`Labels.Trunc`).

Every exception the modelled paths can raise becomes a `Results.Error`:

- an empty point set or inconsistent label count from `check_X_y`;
- an `IndexError` on a neighbour-table column;
- the `ValueError` for an unknown `train_selection`;
- the `ValueError` of the grid search's stratified 3-fold split, raised when there are fewer than 3 target points (each class of the training set then has fewer rows than folds);
- a BallTree query for more neighbours than points.

Exceptions raised inside the classifier beyond that fold check are not modelled (see Left out). The model assumes a numpy version that still provides `np.float` (before 1.24): on later versions lines 201 and 250 of `models/locit.py` raise `AttributeError`, which the model does not represent.

In a few places the code does something its names, comments and docstrings do not suggest. The model follows the code:

- **Strict supervision** (described at `models/locit.py:59` as using only the instances that count the point among their neighbours) indexes the neighbourhood weights with positions taken inside the reverse-neighbour list (see Findings). The scorer (`Ssknno.Scores`, `LocIT.ApplyLocIT`) uses the code's behaviour. The corrected share is defined and proved separately.
- **Label magnitude matters.** Source labels are written into an integer array (`models/locit.py:96-97`), so a label with magnitude below 1 becomes 0 in the combined set. The contamination estimate still counts it, because it uses the float labels.
- **The target labels**, documented as the target ground truth (`models/locit.py:38-39`), **are validated and then ignored** (`LocIT.TargetLabelsIgnored`).
- **"edge" reads column psi+2** of the neighbour row (`models/locit.py:222`), although the parameter description (`models/locit.py:48`) calls it the (psi+1)'th instance.
- **An unknown `train_selection`** is only rejected inside the training loop (`models/locit.py:225-227`), not when the arguments are read. With fewer than two target points the `IndexError` on column 1 comes first.

Modules follow the program's structure:

| module | file | content |
|---|---|---|
| `Results` | `results.dfy` | errors, `Option` for Python's `None`, `Result` |
| `Indices` | `indices.dfy` | numpy index operations, sums and their lemmas |
| `Labels` | `labels.dfy` | the int cast of labels, the contamination estimate |
| `Features` | `features.dfy` | the comparison feature over an abstract norm |
| `Transfer` | `transfer.dfy` | `_instance_transfer` |
| `Ssknno` | `ssknno.dfy` | `_ssknno_anomaly_detection` |
| `LocIT` | `locit.dfy` | `apply_LocIT` |

## Model

| member | source | states |
|---|---|---|
| Indices.Where | models/locit.py:273 | `np.where`: the positions are strictly ascending, each is a position where the mask holds, and there are as many as the mask has true entries |
| Indices.WhereComplete | models/locit.py:273 | every position where the mask holds is among those returned |
| Indices.Gather | models/locit.py:89-92 | fancy indexing `v[ix]`: one entry per index, entry p being `v[ix[p]]` |
| Indices.Slice | models/locit.py:208 | a Python slice `s[lo:hi]` clamps `hi` to the length and is empty when `lo` is past it |
| Indices.GatherWhereSum | models/locit.py:157 | summing the entries picked by `np.where(mask)` equals the masked sum of the vector |
| Indices.Intersect | models/locit.py:164 | `intersect1d`: ascending, every element lies in both inputs and below the bound |
| Indices.IntersectComplete | models/locit.py:164 | every value below the bound present in both inputs is in the intersection |
| Labels.Trunc | models/locit.py:96-97 | the cast of a float label to the int array rounds toward zero |
| Labels.TruncLabelled | models/locit.py:96-97 | a cast label is non-zero exactly when its magnitude is at least 1, and positive exactly when it is at least 1 |
| Labels.Contamination | models/locit.py:100-104 | with a non-zero source label, c times the number of non-zero labels is the number of positive labels and c lies in [0, 1]; otherwise c is exactly 0.1 |
| Labels.ContaminationExample | models/locit.py:100-104 | the labels [1, 1, 0, 0, -1, -1] give c = 0.5 |
| Labels.UnlabelledContamination | models/locit.py:103-104 | all-zero source labels give c = 0.1 |
| Features.Compare | models/locit.py:233-236 | both components are non-negative; the mean shift is the norm of the mean difference; the covariance shift times (‖Ca‖ + tol) is the norm of the covariance difference |
| Features.CompareSelf | models/locit.py:233-236 | identical statistics compare as [0, 0] |
| Features.CompareAsymmetric | models/locit.py:233-236 | the feature is not symmetric: swapping reference and other changes it for some statistics and a valid norm |
| Transfer.NegativeReference | models/locit.py:219-227 | "random" gives `perm[i]`, "edge" gives column psi+2 or an IndexError when the row is too short, "farthest" gives the last column, any other mode is a ValueError naming it |
| Transfer.NegativeReferenceInRange | models/locit.py:219-227 | a chosen negative reference is a valid target index when the table and the shuffle range over the target points |
| Transfer.OwnStats | models/locit.py:208-216 | the statistics of a point's neighbourhood `Ixs[j, 1:psi+1]`: columns 1..psi when the row is long enough, the rest of the row after column 0 when it is shorter, nothing for a row of at most one column |
| Transfer.ReducedStats | models/locit.py:228-230 | the statistics of `Ixs[r_ix, 1:psi]`: columns 1..psi-1, clamped to the row, and nothing when psi is at most 1 |
| Transfer.TrainingPair | models/locit.py:206-241 | one target point's rows succeed exactly when there are at least two target points, the mode is known and the edge column exists; IndexError comes before ValueError; the positive row compares the point with its nearest neighbour over columns 1..psi, the negative row with the reference over columns 1..psi-1 |
| Results.Collect | models/locit.py:206-241 | a loop whose iterations may raise succeeds exactly when every iteration does, keeps each iteration's value in order, and otherwise reports the first raising iteration's error |
| Transfer.Interleave | models/locit.py:238-241 | row 2i holds the positive feature labelled 1.0 and row 2i+1 the negative feature labelled 0.0 |
| Transfer.BuildTrainingSet | models/locit.py:199-241 | it succeeds exactly when the target set is empty or the loop can run; on success it has 2·nt rows with the pair of point i at rows 2i and 2i+1; the error for one point, an unknown mode and a short edge row |
| Transfer.BothClassesPresent | models/locit.py:238-241 | with at least one target point both labels 1.0 and 0.0 occur in the training set |
| Transfer.SourceFeatures | models/locit.py:254-267 | one feature per source point, comparing its source neighbours 1..psi with its target neighbours 0..psi-1 |
| Transfer.MatchingSourceFeature | models/locit.py:254-267 | a source point whose two neighbourhoods have the same statistics gets the feature [0, 0] |
| Transfer.SelectTransferred | models/locit.py:272-273 | the selected indices are strictly ascending, no more than the predictions, and each has prediction 1.0 |
| Transfer.TransferredComplete | models/locit.py:272-273 | every source point predicted 1.0 is selected |
| Transfer.InstanceTransfer | models/locit.py:186-275 | after a successful training loop, fewer than 3 target points fail the grid search's 3-fold split, and then a domain with at most psi points fails the psi+1 queries; it succeeds exactly when the loop does, there are at least 3 target points and both domains have more than psi points; the result is then `np.where` of the predictions equal to 1 of the classifier fitted on the target-only training set and applied to the source features, so it is ascending, no longer than ns and indexes source points |
| Ssknno.Radii | models/locit.py:127 | each combined point's radius is strictly larger than its k-th neighbour distance |
| Ssknno.Weights | models/locit.py:150 | the weights `1/(d + tol)²` are all positive and never increase with distance |
| Ssknno.InverseSquareAntitone | models/locit.py:150 | a farther neighbour never gets a larger weight |
| Ssknno.LooseShare | models/locit.py:155-158 | the loose share is the anomalous labelled weight over the labelled weight, the latter positive, and lies in [0, 1] |
| Ssknno.Reverse | models/locit.py:163-164 | the reverse neighbours are exactly the labelled neighbourhood positions within their own radius of the target point, in ascending order |
| Ssknno.ReverseComplete | models/locit.py:163-164 | every labelled neighbour within its own radius survives the intersection of the two `np.where` lists |
| Ssknno.Within | models/locit.py:163 | the mask `ndists <= radii[nixs]`: entry j holds exactly when neighbour j's distance is within that neighbour's own radius |
| Ssknno.StrictShareAsWritten | models/locit.py:168-172 | the strict share as the code computes it is non-negative (and no more; see Findings) |
| Ssknno.StrictShareAsWrittenExceedsOne | models/locit.py:168-171 | a concrete neighbourhood on which the strict share as written exceeds 2 |
| Ssknno.StrictExampleReverse | models/locit.py:153-164 | in that neighbourhood the only labelled reverse neighbour is the anomalous one, at position 1 |
| Ssknno.StrictScoreOfParts | models/locit.py:163-181 | with prior 0, one of two neighbours a labelled reverse neighbour and a strict share above 2 (as in that neighbourhood), the strict posterior exceeds 1 |
| Ssknno.StrictShare | models/locit.py:168-172 | the corrected strict share lies in [0, 1]; with reverse neighbours, their total weight is positive and the share is the weight of the anomalous reverse neighbours divided by it, else 0 |
| Ssknno.StrictShareOnSameExample | models/locit.py:168-171 | on the same neighbourhood the corrected share is exactly 1 |
| Ssknno.SupervisedPart | models/locit.py:152-178 | Ws lies in [0, 1] and Ss is non-negative; with loose supervision Ss is at most 1; without a labelled neighbour both are 0 |
| Ssknno.LoosePart | models/locit.py:154-165 | with a labelled neighbour, the loose component is the loose share of all labelled neighbours, weighted by the fraction of the neighbourhood that are reverse neighbours |
| Ssknno.StrictPart | models/locit.py:163-171 | with a labelled neighbour, the strict component is the as-written share weighted by the reverse-neighbour fraction |
| Ssknno.PointScore | models/locit.py:143-181 | one target point's posterior: the prior when no neighbour is labelled, non-negative when the prior is, and in [0, 1] with loose supervision when the prior is |
| Ssknno.Blend | models/locit.py:181 | with Ws = 0 the posterior is the prior and with Ws = 1 it is Ss; for Ws in [0, 1] it lies between the prior and Ss, so it is non-negative when both are and at most 1 when both are |
| Ssknno.Scores | models/locit.py:138-183 | one score per target point |
| Ssknno.Detect | models/locit.py:117-133 | the detector fails exactly when the combined set has no more than k points |
| Ssknno.NoLabelsGivesPrior | models/locit.py:138-139 | with no non-zero combined label every score is the prior |
| Ssknno.UnlabelledHoodKeepsPrior | models/locit.py:174-181 | a target point without a labelled neighbour in its radius keeps its prior, in either mode |
| Ssknno.LooseScoresBounded | models/locit.py:150-181 | with loose supervision every score is in [0, 1] when every prior is |
| Ssknno.ScoresNonNegative | models/locit.py:142-183 | in either mode no score is negative when no prior is |
| LocIT.SoundTransferInputs | models/locit.py:195-199 | the library's guarantees give `_instance_transfer` well-shaped tables, shuffle, statistics and predictions |
| LocIT.DefaultLabels | models/locit.py:67-72 | omitted labels become one zero per point |
| LocIT.CheckXY | models/locit.py:69-73 | validation succeeds exactly when the set is non-empty and has one label per point; emptiness is reported first |
| LocIT.Scaled | models/locit.py:76-84 | standardisation keeps the number of points, and is skipped without scaling |
| LocIT.TruncAll | models/locit.py:96-97 | writing the float labels into the int array casts each of them, entry by entry, with `Labels.Trunc` |
| LocIT.AssignPrefix | models/locit.py:97 | a slice assignment overwrites the first entries and keeps the rest |
| LocIT.Combine | models/locit.py:89-97 | the combined set has \|ixt\| + nt rows: transferred source rows with their int-cast labels first, then the target rows labelled 0 |
| LocIT.CombinedLabelled | models/locit.py:96-97 | a combined label is set exactly when some transferred source label has magnitude at least 1 |
| LocIT.EmptyTransfer | models/locit.py:89-97 | transferring nothing leaves the target rows, all labelled 0 |
| LocIT.Transferred | models/locit.py:87 | the transfer's error order (IndexError, unknown mode, fewer than 3 target points for the grid search, too few points for the psi+1 queries) and its success condition in terms of nt, psi, the mode and ns; on success the selection is `LocIT.ClassifierSelection` |
| LocIT.ClassifierSelection | models/locit.py:247-273 | the source points the classifier, fitted on the scaled target domain's training set, predicts 1 for: ascending and indexing source points |
| LocIT.ScoresAfter | models/locit.py:95-107 | scoring succeeds exactly when the combined set has more than k points; one non-negative score per target point, at most 1 with loose supervision |
| LocIT.ApplyLocIT | models/locit.py:23-109 | the validation errors in order (empty source, label count, empty target, label count), then the transfer errors including the grid search's need for 3 target points; success when everything validates, the loop runs, there are at least 3 target points, both domains exceed psi and the target exceeds k; on success one non-negative score per target point, in [0, 1] with loose supervision |
| LocIT.ScoresOfTransferredSubset | models/locit.py:87-107 | a successful run is SSkNNO on the target set combined with exactly the source points `LocIT.ClassifierSelection` selects |
| LocIT.TargetLabelsIgnored | models/locit.py:71-73 | any two valid target label vectors, or none, give the same result |
| LocIT.UnlabelledSourceGivesPrior | models/locit.py:100-107 | with all-zero source labels the contamination is 0.1, no combined label is set, and the scores are the prior |

## Left out

- BallTree construction and queries. These are library calls. Neighbour tables, radius neighbourhoods and distances are environment results shaped by `LocIT.Sound`. The model does not check that they are actual nearest neighbours.
- StandardScaler, SVC and GridSearchCV. These are library calls. Scaling is a length-preserving function and classification returns one prediction per source feature. Of the classifier's own failures only the 3-fold split's need for 3 rows per class is modelled; the SVC's internal probability calibration is assumed not to raise.
- `np.mean`, `np.cov`, `np.linalg.norm`, `np.percentile` and `nan_to_num`. These are floating-point numerics. The statistics are an abstract function of fixed dimension, and the norm is abstract: non-negative and 0 on zero vectors. NaN and its sanitisation are not modelled.
- `_squashing_function` and gamma. They need exp and log. The prior comes from the environment and is assumed to be in [0, 1].
- `np.random.shuffle`. Randomness is an input permutation range.
- `check_X_y` beyond two checks. Only the empty set and the label count are modelled. Finiteness, dimensionality and dtype checks are not.
- Unknown supervision strings. The code does not reject them: the share is then stale or undefined. Supervision is a closed two-value type here.
- Negative `psi` or `k`. A negative `k` makes the k+1 queries (`models/locit.py:119`, `models/locit.py:130`) ask for no or a negative number of neighbours, and `psi` of -2 or less does the same for the psi+1 queries (`models/locit.py:251-252`); by the library's rules these calls raise. The model excludes such values by typing `psi` and `k` as naturals rather than modelling those errors.
- Floating point. Reals are exact: rounding, overflow and NaN are not modelled, for example for the `tol` added to zero distances.
- `run_experiment.py` and `test.py`. They are command-line and file I/O glue around `apply_LocIT`.
- Ssknno.StrictShareAsWritten: only non-negativity is stated. The [0, 1] bound a share should satisfy does not hold for the code as written.
- Ssknno.Scores: its ensures only gives the length. The lemmas after it bound the values (the prior without labels, non-negativity, the loose [0, 1] bound); the value of each point's posterior is given by `Ssknno.PointScore` and its parts (`Ssknno.LoosePart`, `Ssknno.StrictPart`, `Ssknno.Blend`).
- LocIT.ApplyLocIT: success is not characterised exactly when k is between nt and ns + nt. In that range it depends on how many source points the classifier selects; `LocIT.ScoresAfter` states the exact condition.
- LocIT.Sound: every point set is assumed to share one dimension, so all statistics are comparable.

## Findings

| source | as written | input that shows it | evidently intended | confidence | as-written member | corrected member |
|---|---|---|---|---|---|---|
| models/locit.py:170-171 | in strict mode, `ixa` holds positions inside `reverse_nn`, yet the numerator sums `w[ixa]` over the whole neighbourhood | neighbours at distances 0 and 1, labels [0, 1], reverse neighbours [1]: the share is w[0]/w[1], above 2, and with prior 0 and Ws = 1/2 the posterior exceeds 1 | sum `w[reverse_nn[ixa]]`, the anomalous share of the reverse neighbours' weight, which lies in [0, 1] | not executed | Ssknno.StrictShareAsWrittenExceedsOne | Ssknno.StrictShare |
