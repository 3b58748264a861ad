# Concept-whitening training loop: a Dafny model

This project models the algorithmic core of `train_places.py` in the ConceptWhitening
repository. That script trains a Places365 classifier whose whitening layer is re-aligned
with human-named concepts at regular intervals. The model covers:

- **`AverageMeter`** (`meter.dfy`, module `Meter`). The streaming accumulator of last
  value, weighted sum, count and average. Its partner is the weighted mean of all samples.
- **`accuracy`** (`accuracy.dfy`, module `Accuracy`). Top-k precision over a batch of class
  scores. The ranking `topk(maxk, 1, largest=True, sorted=True)` is built by repeated
  selection of the best remaining class. Its partner is a rank definition: a class is in
  the top k exactly when fewer than k classes are ranked ahead of it.
- **Epoch bookkeeping of `main`** (`schedule.dfy`, module `Schedule`). The learning-rate
  decay exponent `epoch // 30`. The `is_best` / `best_prec1 = max(...)` tracking that
  decides when the "best" checkpoint copy is written. The two-epoch training loop.
- **Hooked-block selection of `train_baseline`** (`blocks.dfy`, module `Blocks`). A global
  block number is mapped to a (stage, block) pair, with Python's negative indexing.
  Its partner is the inverse map back to the global number.
- **The two training loops as event traces** (`events.dfy`, `aligned_training.dfy`,
  `baseline_training.dfy`). Each loop is a function from the number of batches and the
  concept loaders to the sequence of calls it makes on the model and the optimizer
  (`model.train()`, `change_mode(m)`, `update_rotation_matrix()`, forward passes,
  hook registration and removal, `zero_grad`, `backward`, `step`). A small state machine
  (`Events.Apply`) states the discipline those calls must keep. The lemmas show that
  every epoch of `train` and every completed run of `train_baseline` is legal under it.
  So is a `train_baseline` run that fails after attaching the hook, up to the failure.
  When no stage matches the configured block, `train_baseline` still passes its concept
  batches through the model with no hook attached before `torch.cat` fails. The
  discipline rejects such a run exactly when some loader yields a batch
  (`BaselineTraining.NoStageRunUnhooked`). The lemmas also show that the cadence is
  right: alignment every 30th batch in `train`, an auxiliary step every 20th batch in
  `train_baseline`.
  They also count the optimizer steps and rotation updates, fix the mode sequence
  inside an alignment cycle, and show that the concept labels line up with the
  captured activations.

A concept loader is modelled as the sequence of its batch sizes. Only its first batch
is used, because both loops `break` after one batch. `change_mode` and
`update_rotation_matrix` live in `MODELS.model_resnet`, which is not part of this model,
so they appear only as opaque events. The value `validate` returns is a parameter of
the epoch bookkeeping.

Behaviours of the code worth knowing, each stated by a lemma:

- Top-k example: with scores `[0.1, 0.7, 0.2]` and label 0, the code ranks classes as
  1, 2, 0. So top-2 precision is 0 and only top-3 precision is 100
  (`Accuracy.AccuracyExample`).
- `main` trains `range(start_epoch, start_epoch + 2)`: exactly two epochs, whatever
  `--epochs` says (`Schedule.Main`).
- The activation hook is not removed when `torch.cat` of the captured activations
  fails: the run ends with the hook still attached
  (`BaselineTraining.HookLeftAttachedOnFailure`).
- `.squeeze()` drops every dimension of size 1 from the pooled concept scores. With a
  single concept loader, or a single captured image in total, `y_pred` has fewer than
  two dimensions, and the concept loss or `accuracy(..., topk=(1,))` cannot index its
  class dimension. The run stops in batch 19 with the hook attached and the concept
  loss never back-propagated (`BaselineTraining.HookLeftAttachedOnScores`,
  `BaselineTraining.FlatScoresExample`).
- The auxiliary update calls `zero_grad` once, before its `backward`
  (`BaselineTraining.AuxUpdateCount`).
- The concept passes of `train_baseline` run in train mode with gradients on, because
  the `model.eval()` calls are commented out. A completed auxiliary step holds no
  `model.eval()` and no `torch.no_grad()` (`BaselineTraining.AuxIterationCount` with
  `BaselineTraining.AuxUpdateCount`).
- In `train`, a concept loader that yields nothing is skipped: `change_mode` is still
  called for it, but no forward pass runs (`AlignedTraining.ConceptPassesCounts`).

## Model

| member | source | states |
|---|---|---|
| Meter.Update | train_places.py:587-591 | `update(v, n)` stores `v`, adds `v*n` to the sum and `n` to the count, and gives an average whose product with the count is the sum; it yields no meter exactly when the new count is zero (division by zero) |
| Meter.UpdateAllAccumulates | train_places.py:581-591 | from a meter with non-negative count, positive-weight updates never divide by zero, grow the sum by the weighted sum and the count by the total weight, and leave the last value as current |
| Meter.AverageIsWeightedMean | train_places.py:581-591 | after `reset` and positive-weight updates the average is the weighted mean of all values seen |
| Meter.AverageWithinBounds | train_places.py:587-591 | if every value lies in `[lo, hi]`, the running average lies in `[lo, hi]` (so precision averages stay in `[0, 100]`) |
| Meter.UpdateExample | train_places.py:581-591 | `update(4, 2)` then `update(2, 1)` from reset gives sum 10, count 3, average 10/3 |
| Meter.EpochPrecision | train_places.py:331-334 | feeding each batch's top-1 percentage with weight batch size gives an epoch average equal to 100 times all hits over all examples |
| Accuracy.Max | train_places.py:605 | `maxk` is an element of `topk` and at least every element |
| Accuracy.TopIndices | train_places.py:608 | the `k` ranked classes are in range, sorted strictly by the ranking order (hence distinct), and each is ranked ahead of every class left out: the `k` largest scores |
| Accuracy.TopIndicesPrefix | train_places.py:608-614 | the first `j` rows of the `maxk` ranking are the ranking for `j`, so `correct[:k]` is the top-`k` ranking |
| Accuracy.InTopIff | train_places.py:608-610 | a class is among the first `k` ranked exactly when fewer than `k` classes are ranked ahead of it |
| Accuracy.HitsDistinct | train_places.py:610-614 | since ranked classes are distinct, an example's column of `correct` holds one match if its target was ranked and none otherwise |
| Accuracy.CorrectKIsRankedHits | train_places.py:608-614 | `correct[:k].sum()` equals the number of examples whose target has fewer than `k` classes ranked ahead of it |
| Accuracy.RankedHitsBounds | train_places.py:613-615 | that count is at most the batch size and never decreases as `k` grows |
| Accuracy.PercentagesOrdered | train_places.py:615 | the scaled counts lie in `[0, 100]` and follow the order of their `k` |
| Accuracy.TopKAccuracy | train_places.py:603-616 | the outcome equals the reference one: an empty `topk`, then a `k` above the class count, then an empty batch are the errors in that order; otherwise, for each requested `k`, 100 times the examples whose target has fewer than `k` classes ranked ahead of it, over the batch size. Each percentage lies in `[0, 100]` and never decreases as `k` grows |
| Accuracy.AccuracyExample | train_places.py:603-616 | scores `[[0.1, 0.7, 0.2]]`: label 1 gives top-1 100; label 0 gives top-1 0, top-2 0, top-3 100 |
| Schedule.DecayExponent | train_places.py:598 | the exponent `e` of `epoch // 30` satisfies `30 e <= epoch < 30 e + 30` |
| Schedule.DecayMonotone | train_places.py:598 | the decay exponent never decreases as the epoch grows |
| Schedule.DecayConstantInBlock | train_places.py:598 | every epoch in `[30 b, 30 b + 29]` has exponent `b` |
| Schedule.TrackBest | train_places.py:230-231 | `is_best` holds iff `prec1 > best_prec1`; the new best is at least both, is one of them, equals `prec1` when `is_best` and is unchanged otherwise |
| Schedule.Epochs | train_places.py:216-238 | the epoch loop saves one record per epoch run |
| Schedule.EpochsTrackBest | train_places.py:216-238 | epoch `i` of a run is `start + i`, is saved as `start + i + 1` with its decay exponent, stores the maximum of the starting best and all precisions so far, and writes the best copy iff its precision strictly exceeds the starting best and every earlier precision |
| Schedule.Main | train_places.py:215-217 | `main` trains exactly two epochs, `start` and `start + 1` |
| Schedule.MainBest | train_places.py:215-238 | in the two epochs the stored best never decreases, nor does the exponent; epoch 1 writes the best copy iff its precision exceeds 0, epoch 2 iff it exceeds 0 and epoch 1's precision |
| Blocks.PyIndex | train_places.py:435-445 | indexing a stage of length `len` by `idx` succeeds iff `-len <= idx < len` and picks `idx`, or `len + idx` for a negative index |
| Blocks.Locate | train_places.py:432-445 | for `1 <= layer <= total`, the chosen stage and block satisfy `block < layers[stage]` and `layer = layers[0] + ... + layers[stage-1] + block + 1`; above the total no stage matches; at or below 0 the first stage is indexed from its end, or the index is out of range |
| Blocks.LocateGlobalLayer | train_places.py:434-445 | every block of every stage is selected by exactly its own global number (round trip) |
| Blocks.LocateExample | train_places.py:432-445 | for ResNet-18 `[2, 2, 2, 2]`: layer 8 is stage 4 block 2, layer 9 matches nothing, layer 0 wraps to stage 1 block 2, layer -2 is out of range |
| Events.OrdinaryStepReady | train_places.py:326-339 | an ordinary update (forward, `zero_grad`, `backward`, `step`) is legal in train mode with ordinary whitening and returns to that state |
| Events.OrdinaryStepCounts | train_places.py:326-339 | an ordinary update has one forward pass, `zero_grad`, `backward` and step each, and nothing else |
| AlignedTraining.ConceptPassesLegal | train_places.py:309-314 | in eval mode without gradients, the concept loop is legal and changes only the whitening mode, which ends at the last concept |
| AlignedTraining.AlignCycleReady | train_places.py:305-318 | an alignment cycle is legal from train mode with ordinary whitening and returns to train mode with mode -1 and gradients on |
| AlignedTraining.BatchEventsReady | train_places.py:302-339 | every batch of `train` is legal from that state and returns to it |
| AlignedTraining.BatchesReady | train_places.py:302-339 | any number of batches of `train` is legal and ends in train mode with mode -1 |
| AlignedTraining.TrainLegal | train_places.py:299-339 | from any fresh model, the whole epoch of `train` is legal (no update while aligning, no mode switch while training) and ends in train mode with mode -1 |
| AlignedTraining.ConceptPassesCounts | train_places.py:309-314 | the concept loop switches to each concept once, passes each non-empty loader's batch once, and does nothing else |
| AlignedTraining.AlignCycleNoUpdate | train_places.py:305-318 | an alignment cycle has no main-task forward pass, `zero_grad`, `backward` or optimizer step |
| AlignedTraining.AlignCycleRotation | train_places.py:315 | an alignment cycle updates the rotation exactly once |
| AlignedTraining.AlignCycleConceptForward | train_places.py:309-314 | an alignment cycle runs one forward pass for a concept iff its loader is non-empty |
| AlignedTraining.BatchesUpdates | train_places.py:326-339 | after `n` batches there are exactly `n` forward passes, `zero_grad`s, `backward`s and optimizer steps |
| AlignedTraining.BatchesRotations | train_places.py:302-318 | after `n` batches there are exactly `n / 30` rotation updates |
| AlignedTraining.BatchesConceptForwards | train_places.py:305-314 | after `n` batches each non-empty concept loader has been passed `n / 30` times, an empty one never |
| AlignedTraining.BatchesPrefix | train_places.py:302 | the trace of `m` batches begins the trace of any `n >= m` batches |
| AlignedTraining.NinetyBatches | train_places.py:302-339 | 90 batches give 3 alignment cycles and 90 optimizer steps |
| AlignedTraining.ConceptPassesModes | train_places.py:309-310 | the mode switches of the concept loop are `c, c+1, ..., m-1` in order |
| AlignedTraining.AlignCycleModes | train_places.py:306-318 | inside an alignment cycle the modes are `0, ..., m-1`, then the rotation update, then mode -1 |
| BaselineTraining.CapturedEmpty | train_places.py:448-456 | the captured list is empty exactly when no concept loader yields a batch |
| BaselineTraining.LabelsMatchCapturedRows | train_places.py:447-457 | the label vector `y` has as many entries as the captured activations have rows |
| BaselineTraining.LabelsRange | train_places.py:449-451 | every label is the index of a concept loader |
| BaselineTraining.LabelsSorted | train_places.py:447-454 | `y` is sorted: the labels come in loader order |
| BaselineTraining.LabelsCount | train_places.py:449-451 | concept `d` appears in `y` exactly as many times as the first batch of its loader has rows, and not at all if the loader is empty |
| BaselineTraining.LabelsFollowCaptures | train_places.py:425-456 | row by row, `y` names the concept whose batch the hook captured at that position |
| BaselineTraining.CapturePassesEvents | train_places.py:449-454 | the auxiliary concept loop consists of concept forward passes and captures only |
| BaselineTraining.CapturePassesLegal | train_places.py:425-454 | with the hook attached the concept loop is legal and leaves a loss pending iff some loader yielded a batch |
| BaselineTraining.SqueezeKeeps | train_places.py:459-469 | `squeeze()` removes exactly the size-1 dimensions and keeps every other size as often as it occurs |
| BaselineTraining.PooledShape | train_places.py:457-469 | the pooled scores `[rows, concepts, 1, 1]` squeeze to `[rows, concepts]` when both exceed one, and lose the dimension that is 1 otherwise |
| BaselineTraining.AuxIterationFailure | train_places.py:432-473 | the auxiliary step fails: with an index error iff the block cannot be indexed; with an empty concatenation iff no stage matches or no loader yields a batch; on flattened scores iff, beyond that, there is one concept loader or one label; on an empty target iff, beyond that, no captured batch has a row. Otherwise it completes |
| BaselineTraining.AuxIterationReady | train_places.py:428-481 | a completed auxiliary step is legal from train mode and returns to it with the hook removed |
| BaselineTraining.AuxIterationCount | train_places.py:428-481 | apart from hook registration and concept passes, a completed auxiliary step consists of its update |
| BaselineTraining.AuxUpdateCounts | train_places.py:477-481 | the auxiliary update has one optimizer step, one hook removal and no main-task forward pass |
| BaselineTraining.BaselineNoFailure | train_places.py:427-503 | when the auxiliary step succeeds or never comes, every batch appends its auxiliary step (on every 20th batch) and its ordinary update |
| BaselineTraining.BaselineCompletes | train_places.py:427-503 | then the run is legal and ends in train mode with no hook attached |
| BaselineTraining.BaselineCounts | train_places.py:427-503 | a completed run over `n` batches has `n` main forward passes, `n + n / 20` optimizer steps and `n / 20` hook removals |
| BaselineTraining.BaselineFails | train_places.py:427-456 | when the auxiliary step fails, the run stops in batch 19 after 19 ordinary updates |
| BaselineTraining.TrainBaselineLegal | train_places.py:419-503 | from any fresh model a completed epoch of `train_baseline` is legal and ends with no hook attached |
| BaselineTraining.NoStageRunUnhooked | train_places.py:432-456 | when no stage matches `layer`, the auxiliary step registers no hook, passes every non-empty concept batch, and fails with the empty concatenation; the discipline rejects its trace exactly when some loader yields a batch, because those passes reach no hook |
| BaselineTraining.HookLeftAttachedOnFailure | train_places.py:432-481 | if the block is found but no concept loader yields a batch, the run fails in batch 19 with the hook still attached |
| BaselineTraining.HookLeftAttachedOnScores | train_places.py:432-481 | if the block is found and a batch is captured, but there is one concept loader or at most one label, the run fails in batch 19 with flattened scores or an empty target, with the hook attached and the concept loss pending |
| BaselineTraining.FlatScoresExample | train_places.py:457-473 | one loader of 64 images, or one image in total, flattens the scores; two non-empty loaders of 2 and 3 images complete the step |

## Left out

- Argument parsing, the checkpoint prefix and model construction (ResNet, DenseNet, VGG) are configuration. The number `int(args.whitened_layers)` is taken as an integer input.
- Data loaders, image transforms, CUDA and `DataParallel` are I/O and device plumbing. With several devices the hook fires once per replica; that is not modelled.
- Loss values, the factor 10 on the concept loss, the values of the four pooling variants and the concept accuracy meter are tensor numerics. The auxiliary update appears only as its `zero_grad`, `backward` and `step` events. Only the shape of the pooled scores is modelled, and with it the failures of lines 471-473 that it causes.
- BaselineTraining.ScoreShape: the hook keeps `output[:, :n_cpt]`. The model takes that slice to have `n_cpt` channels, which holds while there are no more concept loaders than the hooked block has channels (at least 64 in these networks). It also takes the `pool_max` variant's 3×3 max-pooling to succeed, which needs activations at least 3 wide.
- `change_mode` and `update_rotation_matrix` (SVD, orthogonality) live in `MODELS.model_resnet`, which is not part of this model. They are opaque events.
- Learning-rate values are floating point. Only the decay exponent is modelled, not `lr * 0.1 ** exponent`.
- `save_checkpoint` and `torch.save`/`shutil.copyfile` are file I/O. Only the `is_best` decision and the saved epoch and best fields are modelled.
- `validate`, plotting and the evaluation-only branch are evaluation and visualisation. The precision `validate` returns is a parameter.
- Timing meters and progress printing are wall-clock and logging.
- Meter and accuracy arithmetic uses exact reals; floating-point rounding is not modelled.
- Meter.Update: a zero total count gives no meter. For tensor values the source would produce a non-finite average rather than raise.
- Accuracy.TopKAccuracy: requires a rectangular score matrix and one target per row, the shapes the callers always pass. Broadcasting of a single target is not modelled.
- Accuracy.TopKAccuracy: requested `k` values are natural numbers. A negative `k` would slice `correct` from the end; that is not modelled.
- Accuracy.TopIndices: `torch.topk` leaves the order of equal scores unspecified. The model ranks the lower class index first.
