# Verified models of the robot data scripts

This project models the algorithms of the repository's analysis, replay and
conversion scripts and proves what they are for.  Arithmetic is over the reals;
the neural network, the linear-algebra routines, `argsort`, `partition`, the
digest, the square root and the trigonometric functions are parameters about
which only their contracts are known.

* **Decoder replay** (`Permutations`, `FsqQuantizer`, `ObservationLayout`,
  `DecoderReplay`, `ReplayCells`, `ReplayTheorems`, `Resampling`).  The tick loop
  with its rolled buffer, its zero-padded history windows and its packed
  observation is proved equal to a reference run for every deterministic
  decoder, joint count and history length.  About runs: a recording reproduces itself exactly when
  it is what the recurrence seeded at the default pose produces; the actions
  are causal; without the recurrence they depend on one window of inputs.
  `ReplayCells` says cell by cell what every tick shows the decoder and why a
  replay stops.
* **Leave-one-episode-out support** (`NearestFirst`, `BruteForceSearch`,
  `LeaveOneOut`, `BalancedCloud`, `Products`, `LinearAlgebra`, `Mahalanobis`,
  `CovarianceDefinite`, `LeaveOneOutMahalanobis`, `HeldOutDistance`,
  `WeightedQuantiles`).  The masked, blocked nearest-neighbour search and the
  down-dated covariance are proved equal to the naive definitions, the contribution split sums to the squared distance,
  and the weighted quantiles are bounded, monotone and scale-free.
* **Kinematics** (`Rotations`, `Kinematics`, `JointChain`, `ChainMotion`,
  `UrdfTable`, `PalmDistance`).
  The two quaternion formulas are one map; chains are rigid and equivariant;
  the pelvis-frame and world-frame palm distances agree.
* **Onsets and windows** (`Onset`, `FallDetection`, `BaselineWindow`).
* **Resumable conversion** (`EpisodeSelection`, `EpisodeStore`, `Conversion`,
  `ConversionTheorems`, `ConversionFigures`).  A step machine over the output
  tree with a crash possible at any step, a class that executes it, and theorems about any
  sequence of runs.
* **STL writer** (`StlConversion`).

`Outcome` holds the two result types and `Sequences` a few shared orders.
`dafny verify dfyconfig.toml` checks everything.

## What turned out not to hold

Each of these is an if-and-only-if, with a witness.

* `argsort(a) == b` makes `a` and `b` inverse exactly when `a` has no repeated
  or out-of-range entry (`Permutations.GuardCertifiesInverse`); a constant `a`
  passes with `b` the identity (`Permutations.GuardAcceptsNonPermutation`).
* The masked nearest-neighbour search leaves out a query's own episode, and
  scores every cloud as the definition does, exactly when the labels are
  nondecreasing (`LeaveOneOut.MaskRemovesOwnEpisode`,
  `LeaveOneOut.RightExactlyWhenSorted`); two descending labels mislead it
  (`LeaveOneOut.DescendingLabelsMislead`).  The clouds built from ascending
  episodes have labels in order.
* For a neighbour count below `k_max - 1` the score is that of the k nearest
  under every lawful `partition` exactly when the `k_max - 1` nearest tie or
  fewer than k frames are left (`BruteForceSearch.SmallKExactWhenTied`); the
  squares 0, 1, 4, 9, 16 may come out with 9 in front
  (`NearestFirst.ShortHeadCanBeLargest`).  A bracket always holds
  (`LeaveOneOut.KnnIsNearest`).
* The leave-one-out distances exist exactly when every episode leaves some
  frames that are not all equal (`LeaveOneOutMahalanobis.RunSucceedsWhen`): the
  ridge is relative and vanishes with the trace.  One remaining frame has no
  factor (`CovarianceDefinite.OneFrameIsSingular`).
* The slice scan of the start window never tests the last possible start
  (`Onset.SearchesAgree`, `Onset.StartWindow`, witness `Onset.MissedLastStart`).
* A lower threshold or a shorter sustain can lose or delay an onset exactly when
  the timestamps but the last are out of order, and for positive sustains exactly
  when some stamp is later than one from which the clock then moves forwards
  (`Onset.NeverLaterExactly`, witness `Onset.BackwardTimesLoseOnset`).
* The last frame of a 30 Hz episode is resampled exactly when its number is a
  multiple of three (`Resampling.FrameUses`, witness
  `Resampling.SecondOfTwoIsLost`).
* The weighted quantiles are independent of how `argsort` orders ties exactly
  when tied values carry equal weights or the channel is constant
  (`WeightedQuantiles.TieOrderIrrelevantWhen`, witness
  `WeightedQuantiles.UnequalTieShows`).
* The converter's three counts add up exactly when no selected episode's skip
  raises after it was listed and no report raises after its conversion
  (`ConversionTheorems.CountsExactWhen`, witness
  `ConversionTheorems.MissingTotalCountsTwice`).
* The walk up a joint table ends exactly when it returns to no link it has left
  (`UrdfTable.EndlessExactlyWhenCircling`, witness `UrdfTable.TwoJointsCircle`).
* The matrix formula gives a rotation exactly for unit quaternions and for
  those without a vector part (`Rotations.OrthonormalWhenUnit`, witness
  `Rotations.DoubledTurnStretches`).

## Model

| member | source | states |
|---|---|---|
| Permutations.ArgsortInverts | scripts/demo-token-decoder-replay.py:187-199 | sorting the entries of any permutation, with any sort, yields its inverse: the history order undoes the consumed-output order |
| Permutations.GuardCertifiesInverse | scripts/demo-token-decoder-replay.py:258-263 | the parser's check makes the second map a permutation; the first is one, and the two are inverse, exactly when the first has no repeated or out-of-range entry |
| Permutations.GuardAcceptsNonPermutation | scripts/demo-token-decoder-replay.py:262-263 | a constant first map passes the check and is not inverse to the second |
| FsqQuantizer.QuantizeIsNearest | scripts/demo-token-decoder-replay.py:161-165 | the result is level k of the 21 exactly when no level is nearer to the clipped input, the even one on a tie |
| FsqQuantizer.FixedPointsAreLevels | scripts/demo-token-decoder-replay.py:161-165 | a value is unchanged exactly when it is one of the 21 levels, and quantising twice is quantising once |
| FsqQuantizer.QuantizeMonotone | scripts/demo-token-decoder-replay.py:161-165 | larger inputs never give smaller levels |
| FsqQuantizer.HalfStepError | scripts/demo-token-decoder-replay.py:161-165 | the result is within half a step of the clipped input |
| FsqQuantizer.OuterClipIdle | scripts/demo-token-decoder-replay.py:161-165 | the outer clip never changes the rounded value |
| ObservationLayout.ParseLayout | scripts/demo-token-decoder-replay.py:285-305 | the line loop succeeds exactly when every declared name is registered, the widths add up to the model input and the first token block is 64 wide; it then lists the declarations in order without gap or overlap, and otherwise returns the complaint they draw |
| ObservationLayout.ComplaintUnique | scripts/demo-token-decoder-replay.py:285-305 | that complaint is determined: the first missing or unknown name, else the wrong total, else the wrong token width |
| ObservationLayout.LayoutOfIsContiguous | scripts/demo-token-decoder-replay.py:285-299 | one entry per declaration, each starting where the previous one ends |
| ObservationLayout.NameBetweenQuotes | scripts/demo-token-decoder-replay.py:295 | the declared name is the text between the line's first quote and the next one or the line's end; there is none exactly when the line holds no quote |
| ObservationLayout.FirstTokenWidthIs | scripts/demo-token-decoder-replay.py:302-304 | the token width checked is that of the first entry called `token_state`, zero without one |
| ObservationLayout.EachCellCoveredOnce | scripts/demo-token-decoder-replay.py:367-384 | a cell lies in the vector exactly when some block covers it, and no two blocks cover one cell |
| ObservationLayout.AssignSlice | scripts/demo-token-decoder-replay.py:377-384 | writing a block replaces its slice and nothing else |
| ObservationLayout.BuildObservation | scripts/demo-token-decoder-replay.py:367-384 | writing the blocks into the uninitialised vector yields their concatenation in layout order, or the complaint about the first bad block |
| ObservationLayout.AssemblesWhen | scripts/demo-token-decoder-replay.py:377-384 | an observation exists exactly when every declared block is supplied in its declared width |
| ObservationLayout.AssembleComplains | scripts/demo-token-decoder-replay.py:378-383 | a refused assembly complains of the first block in layout order that has no builder or another width |
| ObservationLayout.BlocksReadBack | scripts/demo-token-decoder-replay.py:377-384 | the vector has the declared width and every block is read back unchanged from its slice |
| DecoderReplay.TargetToAction | scripts/demo-token-decoder-replay.py:404-411 | the scattered writes produce the action row, for any permutation |
| DecoderReplay.ActionSlot | scripts/demo-token-decoder-replay.py:404-411 | slot perm[h] is joint h's offset from the default divided by its scale |
| DecoderReplay.ActionOfTarget | scripts/demo-token-decoder-replay.py:397-411 | the action of an action's target is that action |
| DecoderReplay.TargetOfAction | scripts/demo-token-decoder-replay.py:397-411 | the target of a target's action is that target |
| DecoderReplay.ZeroActionIsDefault | scripts/demo-token-decoder-replay.py:404-411 | the action is zero exactly for the default pose |
| DecoderReplay.HistorySlot | scripts/demo-token-decoder-replay.py:463-468 | slot perm[h] of the state histories is joint h's offset and velocity, and the action history uses the same slot for the offset over the scale |
| DecoderReplay.HistoryWindows | scripts/demo-token-decoder-replay.py:387-394 | window t holds the rows ending at t, oldest first, zeros before the first |
| DecoderReplay.PreviousTickWindows | scripts/demo-token-decoder-replay.py:474-476 | window t holds the rows ending at t-1, the first one all zeros |
| DecoderReplay.PreviousWindowIsTail | scripts/demo-token-decoder-replay.py:474-476 | such a window is the tail of the earlier rows with zeros put in front |
| DecoderReplay.RollKeepsTail | scripts/demo-token-decoder-replay.py:486-490 | rolling the buffer and overwriting its last row keeps it the last rows of seed copies followed by the issued actions |
| DecoderReplay.TickAction | scripts/demo-token-decoder-replay.py:494-503 | one pass: assembled observation, width check, one decoder call, or the error |
| DecoderReplay.OutsideWindows | scripts/demo-token-decoder-replay.py:479-491 | the precomputed action windows of the four non-recurrent sources |
| DecoderReplay.TickLoop | scripts/demo-token-decoder-replay.py:463-505 | the imperative loop returns the reference run, in which tick t sees the window its feedback gives for the actions before t |
| DecoderReplay.GuardGivesPermutation | scripts/demo-token-decoder-replay.py:187-199 | the parser's check makes two of the three permutation hypotheses permutations, with nothing more assumed |
| DecoderReplay.ReplayStream | scripts/demo-token-decoder-replay.py:450-507 | the whole call: hypothesis and source errors first, then the reference replay with the joint order and the feedback the two names choose |
| DecoderReplay.IterateExtends | scripts/demo-token-decoder-replay.py:493-507 | the first error ends a run for good, and a longer run begins with the shorter one |
| ReplayCells.ObservationShows | scripts/demo-token-decoder-replay.py:367-384 | the observation of a tick exists exactly when every layout entry is a known block of its known width, and then each entry holds what its name says: position and velocity of joint h in slot perm[h] of its frame, oldest frame first and zeros before tick 0, gravity and angular velocity, the past actions of the source, the token |
| ReplayCells.ShowsDetermines | scripts/demo-token-decoder-replay.py:367-384 | that description fits one vector only |
| ReplayCells.RunIsDecided | scripts/demo-token-decoder-replay.py:493-505 | a run's actions are what the decoder returns for vectors so described, one tick after another; it fails exactly at the first tick whose layout does not fit, with the complaint about its first misfit or about the total width |
| ReplayCells.DecidedUnique | scripts/demo-token-decoder-replay.py:493-505 | no other sequence of actions is decided so |
| ReplayCells.ReplayMeans | scripts/demo-token-decoder-replay.py:450-507 | the whole result: those actions, joint h at its default plus its scale times output slot perm[h], and the tokens given |
| ReplayTheorems.WindowsMeet | scripts/demo-token-decoder-replay.py:474-490 | a fed recording of the issued actions shows the recurrence's window at tick t exactly when the seed is the default pose or has left the window |
| ReplayTheorems.LoopsRunInStep | scripts/demo-token-decoder-replay.py:479-507 | if either loop issues the recorded actions, both do, tick for tick |
| ReplayTheorems.UniqueFixedPoint | scripts/demo-token-decoder-replay.py:479-507 | a recording is reproduced by the replay it feeds exactly when the recurrence seeded at the default pose produces it, and both then return the same result |
| ReplayTheorems.Causal | scripts/demo-token-decoder-replay.py:463-507 | for every feedback the first t actions depend only on tokens and states before t and on recorded targets before t-1 |
| ReplayTheorems.PrefixReplay | scripts/demo-token-decoder-replay.py:463-507 | replaying a prefix of the streams gives the prefix of actions and targets |
| ReplayTheorems.BoundedMemory | scripts/demo-token-decoder-replay.py:387-394 | without the recurrence an action is a function of its token, one window of states and one window of earlier feedback rows, in any replay and at any position |
| Resampling.HoldsLatest | scripts/demo-token-decoder-replay.py:566-567 | a tick holds sample i exactly when i is the latest at or before it, or the first when none is |
| Resampling.HoldsInOrder | scripts/demo-token-decoder-replay.py:566-567 | held indices are nondecreasing in time |
| Resampling.TicksOfSample | scripts/demo-token-decoder-replay.py:566-567 | the ticks that hold a sample are exactly one interval of the grid, given by the sample's and its successor's stamps |
| Resampling.UsesAbut | scripts/demo-token-decoder-replay.py:566-567 | the intervals of consecutive samples abut and stay inside the grid, so every tick belongs to one sample |
| Resampling.SampleUsed | scripts/demo-token-decoder-replay.py:566-567 | a sample before the last is used exactly when a tick falls in its gap, which a gap of one period guarantees |
| Resampling.UseCountBounds | scripts/demo-token-decoder-replay.py:566-567 | past the first, a sample is held by at least the whole periods in its gap and at most that rounded up |
| Resampling.HeldFrame | scripts/demo-token-decoder-replay.py:566-567 | on 30 Hz stamps tick j holds frame 3j/5 rounded down |
| Resampling.FrameUses | scripts/demo-token-decoder-replay.py:566-578 | on 30 Hz stamps every frame but the last is held by one tick or two adjacent ones; the last is held exactly when its number is a multiple of three |
| Resampling.SecondOfTwoIsLost | scripts/demo-token-decoder-replay.py:566-578 | of two frames the second is never held |
| Resampling.WarmStartIsTheWindowResampled | scripts/groot-token-warmstart-ab.py:350-358 | cutting the whole episode's ticks gives the stream of the window resampled alone, so nothing past the window is read; an empty window is an error |
| NearestFirst.SmallestUnique | scripts/analyze-blockstacking-state-support.py:425-427 | which k entries are the smallest is determined as a multiset |
| NearestFirst.PartitionHeads | scripts/analyze-blockstacking-state-support.py:425-427 | under the contract of `partition` the heads of length kth and kth+1 are the sorted heads in some order |
| NearestFirst.HeadSumExact | scripts/analyze-blockstacking-state-support.py:425-427 | the sums of those two heads are the sums of the smallest entries |
| NearestFirst.HeadSumBracket | scripts/analyze-blockstacking-state-support.py:425-427 | a shorter head's sum lies between the sums of the k smallest and the k largest of the entries before the partitioned one |
| NearestFirst.ShortHeadExactWhenTied | scripts/analyze-blockstacking-state-support.py:425-427 | every lawful partition gives a shorter head the smallest sum exactly when the entries before the partitioned one tie or that sum is infinite |
| NearestFirst.ShortHeadCanBeLargest | scripts/analyze-blockstacking-state-support.py:425-427 | five distances in order partitioned at the fifth may come out with the fourth in front |
| BruteForceSearch.ExpandedIsExact | scripts/analyze-blockstacking-state-support.py:388-390 | the expanded square equals the sum of squared differences, so the clamp at zero is idle |
| BruteForceSearch.SortedRowIsNearest | scripts/analyze-blockstacking-state-support.py:419-427 | the mean of the first k sorted entries of a masked row is the mean of the k smallest distances to the frames left, infinite when there are fewer |
| BruteForceSearch.SmallKExactWhenTied | scripts/analyze-blockstacking-state-support.py:425-427 | for k below k_max-1 every lawful partition gives the mean of the k nearest exactly when the k_max-1 nearest tie or fewer than k frames are left |
| LeaveOneOut.MaskRemovesOwnEpisode | scripts/analyze-blockstacking-state-support.py:413-424 | the masked columns are each query's own episode, for all queries, exactly when the labels are nondecreasing |
| LeaveOneOut.DescendingLabelsMislead | scripts/analyze-blockstacking-state-support.py:413-424 | of two frames with descending labels the first one's mask falls on the other |
| LeaveOneOut.RightExactlyWhenSorted | scripts/analyze-blockstacking-state-support.py:407-428 | the masked search ranks what leaving out the own episode ranks, for every cloud, frame and k, exactly when the labels are nondecreasing |
| LeaveOneOut.MaskEpisode | scripts/analyze-blockstacking-state-support.py:422-424 | the rows of one owner become their masked rows, whatever was masked before, and the others stay |
| LeaveOneOut.MaskedBlock | scripts/analyze-blockstacking-state-support.py:419-424 | after the episode loop every row of the block is the masked row of its query |
| LeaveOneOut.MaskedRowIsOutside | scripts/analyze-blockstacking-state-support.py:419-424 | for any labels the masked row is the true squared distances, infinite exactly on the masked columns |
| LeaveOneOut.LoeoKnn | scripts/analyze-blockstacking-state-support.py:407-428 | for every block size, sort and lawful partition each frame gets the scores of its own masked row; too small a cloud is an error |
| LeaveOneOut.KnnIsNearest | scripts/analyze-blockstacking-state-support.py:407-428 | for any labels the means for k_max and k_max-1 are those of the k nearest unmasked frames, and a smaller k is bracketed |
| LeaveOneOut.ScoresAreNearest | scripts/analyze-blockstacking-state-support.py:407-428 | the scores the script stores for k_max and k_max-1 are the roots of those means, which on nondecreasing labels are the leave-one-out means |
| BruteForceSearch.HeadPicks | scripts/analyze-blockstacking-state-support.py:425-427 | the first k entries of a row that splits at k are the squared distances to k distinct frames left, none of the others nearer; with fewer frames their sum is infinite |
| LeaveOneOut.ScoresAreRootMeans | scripts/analyze-blockstacking-state-support.py:407-428 | on nondecreasing labels the score for k_max and k_max-1 is the root of the total squared distance to k distinct frames of other episodes, none of the others nearer, divided by k; infinite with fewer than k such frames |
| LeaveOneOut.SmallScoresBracketed | scripts/analyze-blockstacking-state-support.py:407-428 | for any labels the score for a smaller k is the root of a mean between that of the k nearest unmasked frames and that of the k farthest of the k_max-1 nearest |
| BalancedCloud.Build | scripts/analyze-blockstacking-state-support.py:341-356 | every pick is a frame of its label's episode, and labels are nondecreasing when the episodes are; no frame twice and each episode's share for distinct episodes; an error exactly when no episode has a frame |
| BalancedCloud.Visit | scripts/analyze-blockstacking-state-support.py:347-353 | one turn extends a labelled, balanced cloud by one episode and skips an empty one |
| BalancedCloud.Draw | scripts/analyze-blockstacking-state-support.py:348-352 | distinct ascending frames of the episode, as many as its share |
| BalancedCloud.RowsOfHasAll | scripts/analyze-blockstacking-state-support.py:348 | every frame of the episode is among its rows, so a draw may pick any of them |
| BalancedCloud.TakeIsShare | scripts/analyze-blockstacking-state-support.py:351 | an episode's share is the number asked for, or the number of its frames when that is less |
| LinearAlgebra.TriangularUnique | scripts/analyze-blockstacking-state-support.py:450 | a lower triangular system with positive diagonal has at most one solution |
| LinearAlgebra.TransposeTakesOnlyZero | scripts/analyze-blockstacking-state-support.py:444-450 | the transposed factor takes only zero to zero |
| LinearAlgebra.FactorTwice | scripts/analyze-blockstacking-state-support.py:444-450 | applying the factor after its transpose applies the factored matrix |
| LinearAlgebra.PrecisionUndone | scripts/analyze-blockstacking-state-support.py:445-456 | the covariance undoes a product with the precision from the left |
| LinearAlgebra.QuadraticFormIsNorm | scripts/analyze-blockstacking-state-support.py:448-457 | the quadratic form of the inverse is the squared norm of the triangular solution |
| Mahalanobis.ContributionsAddUp | scripts/analyze-blockstacking-state-support.py:439-457 | the contributions of any query add up to its squared distance |
| Mahalanobis.TakenDown | scripts/analyze-blockstacking-state-support.py:467-472 | any row sum over the remaining frames is the total minus the held part |
| LeaveOneOutMahalanobis.MomentsTakenDown | scripts/analyze-blockstacking-state-support.py:470-473 | the down-dated mean and Gram matrix are those of the remaining frames, entry for entry |
| LeaveOneOutMahalanobis.HoldOut | scripts/analyze-blockstacking-state-support.py:468-477 | one episode's down-dated mean and factor are those of a rebuild without it, failing exactly when the rebuild would |
| LeaveOneOutMahalanobis.RunSucceedsWhen | scripts/analyze-blockstacking-state-support.py:460-480 | under the contract of `cholesky` all rebuilds succeed exactly when every episode leaves some frames that are not all equal |
| LeaveOneOutMahalanobis.LoeoMahalanobis | scripts/analyze-blockstacking-state-support.py:460-480 | every frame gets the distance of a model rebuilt without its episode; the run fails exactly when holding out some episode leaves no frame or copies of one |
| HeldOutDistance.RemainingAreOthers | scripts/analyze-blockstacking-state-support.py:468-470 | the remaining frames are those whose label is another, in ascending order |
| HeldOutDistance.MeanBalances | scripts/analyze-blockstacking-state-support.py:473 | deviations from the mean add up to zero in every channel |
| HeldOutDistance.MeanUnique | scripts/analyze-blockstacking-state-support.py:473 | only one vector balances them |
| HeldOutDistance.CovarianceIsRidged | scripts/analyze-blockstacking-state-support.py:431-436 | the covariance is the average of the cross-products about the mean, with a millionth of the average variance added on the diagonal |
| HeldOutDistance.HeldDistance | scripts/analyze-blockstacking-state-support.py:473-479 | frame i gets root(s), where s is the squared norm of the y whose image under the factor of that covariance is the frame's deviation from the mean of the remaining frames |
| HeldOutDistance.CholeskyUnique | scripts/analyze-blockstacking-state-support.py:477 | a matrix has one Cholesky factor |
| HeldOutDistance.SquaredDistanceUnique | scripts/analyze-blockstacking-state-support.py:473-479 | mean, covariance, factor and solution are all determined, so the definition leaves one s |
| HeldOutDistance.ZeroExactlyAtMean | scripts/analyze-blockstacking-state-support.py:473-479 | s is never negative and zero exactly at the mean |
| HeldOutDistance.ZeroAtTheOthersMean | scripts/analyze-blockstacking-state-support.py:460-480 | a held-out frame is at distance zero exactly when it is the mean of the frames of the other episodes |
| HeldOutDistance.ContributionOfChannel | scripts/analyze-blockstacking-state-support.py:453-457 | channel j contributes the query's deviation there times its deviations against column j of the precision |
| CovarianceDefinite.SpreadVanishes | scripts/analyze-blockstacking-state-support.py:431-436 | mean square minus squared mean is never negative, and zero exactly for a constant list |
| CovarianceDefinite.QuadraticIsSpread | scripts/analyze-blockstacking-state-support.py:431-436 | the quadratic form of the regularised covariance is the spread of the projections plus the ridge's share of the norm |
| CovarianceDefinite.DefiniteUnlessConstant | scripts/analyze-blockstacking-state-support.py:431-446 | the regularised covariance is positive definite exactly when the frames are not all equal |
| CovarianceDefinite.FactoredIsDefinite | scripts/analyze-blockstacking-state-support.py:431-446 | only a positive definite matrix has a Cholesky factor |
| CovarianceDefinite.OneFrameIsSingular | scripts/analyze-blockstacking-state-support.py:431-446 | the covariance of a single frame has no Cholesky factor |
| WeightedQuantiles.InterpSegment | scripts/analyze-blockstacking-state-support.py:258-260 | between two nodes the recursive interpolation is their chord |
| WeightedQuantiles.QuantileWithinChannel | scripts/analyze-blockstacking-state-support.py:248-261 | for positive weights a quantile lies between the channel's least and greatest value |
| WeightedQuantiles.QuantileMonotone | scripts/analyze-blockstacking-state-support.py:248-261 | a quantile is nondecreasing in its fraction |
| WeightedQuantiles.QuantileRescaled | scripts/analyze-blockstacking-state-support.py:248-261 | rescaling all weights changes nothing |
| WeightedQuantiles.EqualWeightsGiveTheMedian | scripts/analyze-blockstacking-state-support.py:248-261 | at one half with equal weights it is the ordinary median, for odd and even samples |
| WeightedQuantiles.QuantileAtBoundary | scripts/analyze-blockstacking-state-support.py:257-260 | where the weight of one node ends and the next one's begins the quantile is the mean of their two values, each counted with the other's weight |
| WeightedQuantiles.TieOrderIrrelevantWhen | scripts/analyze-blockstacking-state-support.py:257-260 | every sort gives the same quantile at every fraction exactly when tied values carry equal weights or all values are one |
| WeightedQuantiles.UnequalTieShows | scripts/analyze-blockstacking-state-support.py:257-260 | of three frames of which two tie below the third with different weights, another sort gives other quantiles |
| WeightedQuantiles.WeightedChannelQuantiles | scripts/analyze-blockstacking-state-support.py:248-261 | the channel loop fills every cell with its channel's quantile at its fraction |
| WeightedQuantiles.LoadAllValidStates | scripts/analyze-blockstacking-state-support.py:319-338 | each entry's frames below its declared and its actual count, entry by entry in order, each weighing one over that count and owned by its episode; positive weights summing to the number of non-empty episodes and to one per entry of an episode; an error exactly when all are empty |
| Rotations.RotateIsMatrix | scripts/demo-token-decoder-replay.py:422-428 | rotating a point is applying the other script's matrix, for every quaternion |
| Rotations.OrthonormalWhenUnit | scripts/compare-blockstacking-dataset.py:245-251 | the matrix is orthonormal exactly for unit quaternions and those without a vector part |
| Rotations.DoubledTurnStretches | scripts/compare-blockstacking-dataset.py:245-251 | a half turn with doubled quaternion is not orthonormal |
| Rotations.ConjugateTransposes | scripts/compare-blockstacking-dataset.py:245-251 | the matrix of the conjugate is the transpose |
| Rotations.QuatMulAssociates | scripts/demo-token-decoder-replay.py:708-712 | the quaternion product is associative |
| Rotations.SandwichIsRotation | scripts/demo-token-decoder-replay.py:422-428 | q p q* is the rotation plus the norm's defect times p, for every quaternion |
| Rotations.RotateComposes | scripts/demo-token-decoder-replay.py:708-712 | for unit quaternions rotating by a product rotates by the right factor, then by the left |
| Rotations.ConjugateUndoes | scripts/demo-token-decoder-replay.py:422-428 | a unit quaternion's conjugate undoes its rotation |
| Rotations.RotateKeepsDot | scripts/demo-token-decoder-replay.py:422-428 | a unit quaternion's rotation preserves dot products |
| Rotations.NormalisedIsUnit | scripts/demo-token-decoder-replay.py:414-419 | dividing by the norm gives a unit quaternion |
| Rotations.GravityIsThirdRow | scripts/demo-token-decoder-replay.py:414-419 | the gravity direction is a unit vector and is minus the third row of the attitude matrix |
| Kinematics.RodriguesOrthonormal | scripts/compare-blockstacking-dataset.py:150-170 | the axis-angle matrix of a unit axis is orthonormal |
| Kinematics.ComposeAssociates | scripts/compare-blockstacking-dataset.py:211-226 | products of a 4x4 matrix with two homogeneous transforms associate |
| Kinematics.RigidCompose | scripts/compare-blockstacking-dataset.py:211-226 | rigid transforms are closed under composition |
| Kinematics.RigidKeepsDistance | scripts/compare-blockstacking-dataset.py:211-226 | rigid transforms preserve distances |
| JointChain.RpyOrthonormal | scripts/compare-blockstacking-dataset.py:140-147 | the roll-pitch-yaw matrix is orthonormal |
| JointChain.AxisAngleOrthonormal | scripts/compare-blockstacking-dataset.py:150-170 | the axis-angle matrix is orthonormal for every axis, including a null one |
| JointChain.ReadJointsAreMounted | scripts/compare-blockstacking-dataset.py:180-193 | joints read from a file have rigid origins, with or without an origin element |
| JointChain.TipRigid | scripts/compare-blockstacking-dataset.py:211-226 | for every chain and joint vector the tip is a rotation, a translation and the row (0, 0, 0, 1) |
| JointChain.FkChain | scripts/compare-blockstacking-dataset.py:211-226 | the loop started at any 4x4 base returns the base times the tip of the loop started at the identity |
| JointChain.TipEquivariant | scripts/compare-blockstacking-dataset.py:236-242 | moving the base moves the tip position with it |
| ChainMotion.StepMoves | scripts/compare-blockstacking-dataset.py:150-170 | a joint takes p to its origin applied to c p + s (n x p) + (1 - c)(n . p) n with n the unit vector along its axis, and to its origin applied to p when it is fixed or its axis is null |
| ChainMotion.TipCarries | scripts/compare-blockstacking-dataset.py:211-226 | the tip carries every point along the chain, each joint moving it so, from the tip frame to the root |
| ChainMotion.PathUnique | scripts/compare-blockstacking-dataset.py:211-226 | only one path of points ends at p |
| ChainMotion.NeutralTip | scripts/compare-blockstacking-dataset.py:211-226 | when every joint is fixed, has a null axis or stands at cosine one and sine zero, the chain is the ordered product of its origins |
| ChainMotion.RpyTurns | scripts/compare-blockstacking-dataset.py:140-147 | the matrix rolls a point about x, then pitches it about y, then yaws it about z |
| ChainMotion.ReadJoint | scripts/compare-blockstacking-dataset.py:179-193 | a joint read from a file turns points by the element's angles and then shifts them by its offset, both zero when absent; its axis is z when absent and it is fixed exactly when its type says so |
| UrdfTable.ChainUnique | scripts/compare-blockstacking-dataset.py:198-209 | there is at most one chain from the root to a link |
| UrdfTable.Urdf.FindJoint | scripts/compare-blockstacking-dataset.py:204 | the first joint with the child link, or none when there is no such joint |
| UrdfTable.Urdf.Chain | scripts/compare-blockstacking-dataset.py:198-209 | wherever the walk up the table ends, returns and caches the chain to the link, keeps every cached chain right, and fails exactly when there is none |
| UrdfTable.HaltsWithinTable | scripts/compare-blockstacking-dataset.py:203-206 | a walk that ends at all ends within as many steps as the table has joints |
| UrdfTable.EndlessExactlyWhenCircling | scripts/compare-blockstacking-dataset.py:203-206 | the walk never ends exactly when it returns to a link it has left |
| UrdfTable.TwoJointsCircle | scripts/compare-blockstacking-dataset.py:203-206 | the walk over two joints that hang from each other never ends |
| UrdfTable.TreesHalt | scripts/compare-blockstacking-dataset.py:203-206 | in an acyclic table every walk ends |
| UrdfTable.ChainIsMounted | scripts/compare-blockstacking-dataset.py:180-209 | every chain of a table read from a file has rigid origins |
| UrdfTable.ReadUrdf | scripts/compare-blockstacking-dataset.py:176-196 | reads the joints in order and picks a link that is nobody's child as the root, failing exactly when there is none; the cache starts empty |
| UrdfTable.Urdf.constructor | scripts/compare-blockstacking-dataset.py:194-196 | holds the joints and the root it is given and an empty cache |
| UrdfTable.NoChainThrough | scripts/compare-blockstacking-dataset.py:203-206 | a link without a joint above it is on no chain |
| PalmDistance.FramesAgreeWhenUnit | scripts/groot-token-warmstart-ab.py:670-680 | pelvis-frame and world-frame distances agree for every palm, root and cube exactly for unit attitudes and those without a vector part |
| PalmDistance.DistancesAgree | scripts/compare-blockstacking-dataset.py:1062-1063 | with an orthonormal attitude the two distances are equal |
| PalmDistance.TipDistancesAgree | scripts/compare-blockstacking-dataset.py:236-242 | for a unit attitude, the squared distance from a cube to forward kinematics started at the robot's base is the pelvis-frame one to forward kinematics without a base, for every chain and joint vector |
| PalmDistance.CubeDistance | scripts/groot-token-warmstart-ab.py:670-680 | the least squared pelvis-frame distance over the cubes, which for a unit attitude is the least world distance; zero without cubes |
| Onset.SustainedOnset | scripts/analyze-blockstacking-rollout.py:251-269 | the start of the run, not extendable to the left, that is the first to span the sustain between its first and a later sample; none exactly when no run does |
| Onset.OnsetUnique | scripts/analyze-blockstacking-rollout.py:251-269 | that specification leaves one answer |
| Onset.OnsetMonotone | scripts/analyze-blockstacking-rollout.py:251-269 | on nondecreasing timestamps a lower threshold or shorter sustain never loses an onset or makes it later |
| Onset.NeverLaterExactly | scripts/analyze-blockstacking-rollout.py:251-269 | the timestamps on which no values, thresholds and sustains lose or delay an onset: all but the last in order; for positive sustains, none later than the start of a pair that moves forwards |
| Onset.BackwardTimesLoseOnset | scripts/analyze-blockstacking-rollout.py:251-269 | on stamps 9, 0, 5 a lower threshold loses the onset |
| FallDetection.DetectFall | scripts/analyze-blockstacking-rollout.py:623-659 | undecided exactly below ten usable samples; otherwise a fall exactly when the pelvis stays below the limit for the sustain, with the time of that stretch, the medians of the baseline and of the last hundred heights, the least height and the first time below the limit |
| FallDetection.FallIsBelow | scripts/analyze-blockstacking-rollout.py:623-659 | a fall comes with a sample and a least height below the limit, on ordered times no later than the fall |
| FallDetection.UsablePicks | scripts/analyze-blockstacking-rollout.py:631-635 | the usable samples are, in order, exactly the rows with a finite time and height, each with its own two figures |
| FallDetection.FinitePicks | scripts/analyze-blockstacking-rollout.py:638-642 | the band heights are, in order, those of exactly the baseline rows with a finite height |
| Onset.RunCounter | scripts/compare-blockstacking-dataset.py:380-388 | the least index that starts `need` consecutive hits, or none when there is none |
| Onset.SliceScan | scripts/groot-token-warmstart-ab.py:289-294 | the least such index below n-need, or none when there is none below it |
| Onset.SearchesAgree | scripts/groot-reset-pose-ab.py:287-292 | the scan answers as the counter whenever its answer is below n-need and none otherwise; they differ exactly when it is n-need |
| Onset.StartWindow | scripts/groot-token-warmstart-ab.py:289-298 | the onset is the first run's start when it is below n-need and none otherwise; the frames kept before it are as many as the onset's index, the floor when it is below that and the cap when above, and past the floor a run starts among them exactly when the first run starts `need` frames before the end |
| Onset.MissedLastStart | scripts/groot-token-warmstart-ab.py:289-298 | a run in the last two of four frames is found by the counter, missed by the scan and left in the window |
| Onset.WindowIsQuiet | scripts/groot-token-warmstart-ab.py:289-298 | past the floor the window holds the start of a run exactly when the episode's first run starts `need` frames before its end |
| BaselineWindow.Window | scripts/analyze-blockstacking-rollout.py:275-283 | the loop selects what the filter function selects |
| BaselineWindow.SelectedPicks | scripts/analyze-blockstacking-rollout.py:275-283 | the selection is the order-preserving sub-sequence of exactly the rows whose truncated time lies in the closed interval |
| BaselineWindow.UpperMedianRank | scripts/analyze-blockstacking-rollout.py:500-502 | the score is one of the values, at most half of them below it and more than half at most it |
| BaselineWindow.QuietBaselineWindow | scripts/analyze-blockstacking-rollout.py:481-511 | terminates; the whole interval if no longer than the span, otherwise exactly the span long and inside it: the half-step candidate of least median score among those with data, the earliest on ties, or the last span when none has data |
| BaselineWindow.QuietWindowUnique | scripts/analyze-blockstacking-rollout.py:481-511 | that specification leaves one window |
| BaselineWindow.QuietestOfTried | scripts/analyze-blockstacking-rollout.py:497-511 | among the left ends in steps of half the span, one nanosecond at least, from the reset, no stretch with data is calmer than the window and every equally calm one is later |
| BaselineWindow.FallsBackWithoutData | scripts/analyze-blockstacking-rollout.py:509-510 | when none of those stretches holds data the window is the last span before the start |
| EpisodeSelection.SelectionIsExact | scripts/convert-unitree-sonic-production.py:87-108 | selected are exactly the episodes in range that are not excluded, ascending and distinct; reported as excluded exactly those in range that are |
| EpisodeSelection.SelectionFails | scripts/convert-unitree-sonic-production.py:87-108 | fails exactly for a range past the dataset, which is reported first, or an exclusion outside it, and lists all of those |
| EpisodeStore.StepKeepsSound | scripts/convert-unitree-sonic-production.py:193-244 | every file-system step, a crash included, keeps each target a complete pair of one conversion or what is left of one |
| EpisodeStore.EveryStateSound | scripts/convert-unitree-sonic-production.py:163-246 | so does every state of any execution: any number of runs, each cut short anywhere |
| EpisodeStore.SkipsExactlyMatchingPairs | scripts/convert-unitree-sonic-production.py:67-78 | over such targets a rerun skips exactly the complete pairs made from the same source, encoder, configuration and code |
| Conversion.Converter.constructor | scripts/convert-unitree-sonic-production.py:156-161 | a fresh process has counted nothing and its trace is the file system it found |
| Conversion.Converter.Take | scripts/convert-unitree-sonic-production.py:193-244 | one file-system step, recorded in the trace |
| Conversion.Converter.Build | scripts/convert-unitree-sonic-production.py:193-232 | both files end up under an unused temporary name and no target changes, or the attempt raises |
| Conversion.Converter.Clear | scripts/convert-unitree-sonic-production.py:233-234 | removing the old directory file by file leaves it gone, or what remained when the removal raised |
| Conversion.Converter.Commit | scripts/convert-unitree-sonic-production.py:233-236 | the built directory replaces the old one, or the target is left cleared, part cleared or absent |
| Conversion.Converter.Convert | scripts/convert-unitree-sonic-production.py:193-246 | the outcome of one attempt on targets and counts, with the temporaries restored |
| Conversion.Converter.TrySkip | scripts/convert-unitree-sonic-production.py:180-192 | the skip branch with its partial effects when it raises |
| Conversion.Converter.Run | scripts/convert-unitree-sonic-production.py:163-246 | targets and counts are the fold of the episodes' outcomes, and every state in between is sound if the first was |
| ConversionTheorems.CountsAddUp | scripts/convert-unitree-sonic-production.py:180-250 | for a selection without repetition the three counts sum to its size plus the repeats that the targets before the run and the exceptions met determine: a skip that raises after it was listed, a report that raises after the conversion |
| ConversionTheorems.CountsExactWhen | scripts/convert-unitree-sonic-production.py:180-250 | so they add up exactly when no selected episode repeats |
| ConversionTheorems.MissingTotalCountsTwice | scripts/convert-unitree-sonic-production.py:180-192 | a pair whose manifest lacks the frame total is listed as skipped and then converted |
| ConversionTheorems.OwnManifestsAddUp | scripts/convert-unitree-sonic-production.py:180-250 | over directories this converter wrote they sum to the selection's size when no skip and no report of a conversion raises |
| ConversionTheorems.ExchangedFileIsRedone | scripts/convert-unitree-sonic-production.py:67-78 | an action file exchanged behind a pair's manifest is skipped exactly when the two files' digests collide; otherwise an untroubled attempt replaces the pair |
| ConversionTheorems.OnlyOwnTarget | scripts/convert-unitree-sonic-production.py:163-246 | an attempt leaves all other targets alone; converted means the new pair is there; failed leaves the old target, part of it, nothing, or a new pair that could not be measured or reported |
| ConversionTheorems.RunFinishes | scripts/convert-unitree-sonic-production.py:163-246 | a run whose summary shows no failure and counts that add up leaves every selected target skippable and reports what those targets are worth |
| ConversionTheorems.OneRunSettles | scripts/convert-unitree-sonic-production.py:163-246 | whatever runs there were and wherever the last was cut short, one run that meets no trouble fails nowhere, leaves every selected target skippable and reports what they are worth |
| ConversionTheorems.SecondRunDoesNothing | scripts/convert-unitree-sonic-production.py:163-246 | after a run whose summary shows no failure and counts that add up, a second one without `--force` in which no skip raises converts nothing, changes nothing and reports the same frames, valid frames and bytes |
| ConversionFigures.CountIsCardinality | scripts/convert-unitree-sonic-production.py:223 | the valid number written is the number of frames marked valid |
| ConversionFigures.EpisodeFigures | scripts/convert-unitree-sonic-production.py:193-246 | one untroubled conversion leaves the artifact beside a manifest with its frames, the number marked valid and its digest, lists those two numbers and the sum of the two file sizes, and adds exactly these to the totals |
| ConversionFigures.RunFigures | scripts/convert-unitree-sonic-production.py:163-246 | after an untroubled run over distinct episodes without targets, or a forced one over any, every directory and entry says so of its own artifact and the totals are the sums of the entries |
| StlConversion.ParseFacets | containers/prepare-g1-assets.py:24-40 | the line loop finds the runs of vertices between normals, cut into triples under the normal before them, and fails exactly on a matching line without numbers |
| StlConversion.StepsFindFacets | containers/prepare-g1-assets.py:28-40 | stepping through lines from any parser state agrees with cutting into runs |
| StlConversion.NoiseIgnored | containers/prepare-g1-assets.py:28-40 | lines that match neither pattern change nothing |
| StlConversion.WellFormedParses | containers/prepare-g1-assets.py:24-40 | a text of one normal and three vertices per facet parses to exactly those facets in order |
| StlConversion.PackedRecords | containers/prepare-g1-assets.py:43-50 | when every number fits, the pieces written are the facets' fifty-byte records in order |
| StlConversion.WriteFacets | containers/prepare-g1-assets.py:46-50 | the body loop writes the pieces up to the first that does not fit single precision |
| StlConversion.DecodeEncoded | containers/prepare-g1-assets.py:43-50 | reading the written bytes gives the facets in order from a file of 84 + 50 n bytes |
| StlConversion.ConvertAsciiStl | containers/prepare-g1-assets.py:24-50 | for every text the written file decodes to its facets; a bad number or no facet writes nothing, too many facets leave the header, a number too large cuts the body short, and no file cut short decodes |

## Left out

- Rounding: all numbers are reals; single and double precision, the rounding of
  reported figures and the `1e-6` grid tolerance are not modelled.  Coordinates
  of the STL writer are their 32-bit patterns, and artifacts hold bit patterns.
- The neural network: any deterministic function of the observation with an
  output of the right width.  Rows wider or narrower than the joint count are
  not modelled.
- The square root, norms and trigonometric functions are parameters; `cos` and
  `sin` are known to lie on the unit circle, a norm to square to the sum of
  squares.  Distances are compared squared.
- `argsort`, `partition`, `inv`, `cholesky`, `solve` and the random generator
  have their library contracts only; `cholesky` raises exactly on symmetric
  matrices that are not positive definite.
- DecoderReplay.ReplayStream: the scales are nonzero, since division by zero has
  no real value.  Only for the hypothesis `isaaclab_to_mujoco` is the joint map
  asked to be a permutation, which the parser's check does not establish there.
- Vectorised batches are modelled one row at a time, except the blocks of the
  nearest-neighbour search; the column selection by `index` is done beforehand.
- UrdfTable.Urdf.Chain: asked for only where the walk up the joint table ends;
  where it circles the original loops for ever.  XML parsing is left out.
- PalmDistance.CubeDistance: returns the squared distance.
- Onset.StartWindow: the speeds and the median over the window are left out;
  the series is given as hits and misses.
- BaselineWindow.QuietBaselineWindow: the span is a nonnegative number of
  nanoseconds.
- Resampling.WarmStartIsTheWindowResampled: stamps are exactly j/30.
- The linear interpolation of joint angles onto the ticks: the same curve as
  that of the quantiles.
- EpisodeStore.EveryStateSound: one process at a time; a target directory
  holds no foreign files; removing a temporary directory is one step.  Loading
  and encoding an episode is one outcome, an artifact or an error.
- Conversion.Converter.Run: an exception outside the per-episode handler (hashing
  a data file, making the temporary directory, printing a failure) ends the
  original's run without a summary; only the step machine's crash covers it.
- Conversion.Converter.TrySkip: of a manifest's count only what `int(...)` makes
  of it is modelled.
- The reading, filtering and sorting of the episode list, and the rows read from
  files in front of every modelled computation.
- The pinned hashes, quality gate and dataset allowlist in front of the
  conversion loop, the digest cache and the summary's timings.
- The nearest-neighbour distances of rollout queries, which share `partition`
  and the distance formula with the modelled search, and the pose medoid.
- The live bridge, services, figures, reports, argument parsing and file
  formats other than STL.
