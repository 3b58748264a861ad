/**
 The control skeleton of `train_baseline` in train_places.py: ordinary
 training with, every 20th batch, an auxiliary concept-classification step
 fed by a forward hook on the `bn1` of one residual block.

 The inputs are the number of main-task batches, the global block number
 `layer` and per-stage block counts `layers` that choose the hooked block,
 and, per concept loader, the sizes of the batches it would yield (only the
 first is used). The values of the pooled scores, the classifier loss and its
 factor 10 are numerics and are not modelled; only the shape of the scores
 is, because it decides whether the loss and `accuracy` can run. The
 auxiliary update appears as its `zero_grad`, `backward` and `step` events.
 */
module BaselineTraining {
  import opened Wrappers
  import opened Events
  import opened Blocks
  import Meter
  import Accuracy

  /** An auxiliary step runs before the ordinary update of every 20th batch. */
  const AuxEvery: nat := 20

  predicate AuxAt(i: nat)
  {
    (i + 1) % AuxEvery == 0
  }

  /** The exceptions that end a run of `train_baseline`. */
  datatype Failure =
    | HookIndexOutOfRange  // `IndexError` indexing the stage for the hooked block
    | NothingCaptured      // `torch.cat` of an empty list of captured activations
    | FlatScores           // `y_pred` squeezed below two dimensions: the loss or `accuracy` finds no class dimension
    | NoConceptRows        // the captured batches have no rows: `accuracy` cannot view the empty target

  /** The events of a run and, when it stopped early, the reason. */
  datatype Run = Run(events: seq<Event>, failure: Option<Failure>)

  /** Some concept loader from `c` on yields a batch. */
  predicate HasConceptBatch(loaders: seq<seq<nat>>, c: nat)
  {
    exists d :: c <= d < |loaders| && |loaders[d]| > 0
  }

  /**
   The concept loop of an auxiliary step from concept `c` on: the first
   batch of every non-empty loader goes through the model, and the hook, when
   attached, copies its activations.
   */
  function CapturePasses(loaders: seq<seq<nat>>, c: nat, hooked: bool): seq<Event>
    decreases |loaders| - c
  {
    if c >= |loaders| then []
    else
      (if |loaders[c]| > 0 then [ConceptForward(c)] + (if hooked then [Capture(c, loaders[c][0])] else []) else [])
        + CapturePasses(loaders, c + 1, hooked)
  }

  /** The list `inter_feature` the hook fills: the row count of each captured batch. */
  function Captured(loaders: seq<seq<nat>>, c: nat): seq<nat>
    decreases |loaders| - c
  {
    if c >= |loaders| then []
    else (if |loaders[c]| > 0 then [loaders[c][0]] else []) + Captured(loaders, c + 1)
  }

  /** `[c] * k`. */
  function Repeat(c: nat, k: nat): (r: seq<nat>)
    ensures |r| == k
    ensures forall i :: 0 <= i < k ==> r[i] == c
  {
    seq(k, _ => c)
  }

  /** The label vector `y`: each non-empty loader's index, once per row of its first batch. */
  function ConceptLabels(loaders: seq<seq<nat>>, c: nat): seq<nat>
    decreases |loaders| - c
  {
    if c >= |loaders| then []
    else (if |loaders[c]| > 0 then Repeat(c, loaders[c][0]) else []) + ConceptLabels(loaders, c + 1)
  }

  /** `Tensor.squeeze()` on a shape: every dimension of size 1 is dropped. */
  function Squeeze(shape: seq<nat>): (r: seq<nat>)
    ensures forall i :: 0 <= i < |r| ==> r[i] != 1
  {
    if |shape| == 0 then []
    else Squeeze(shape[..|shape| - 1]) + (if shape[|shape| - 1] == 1 then [] else [shape[|shape| - 1]])
  }

  /**
   The shape of `y_pred`: every pooling variant reduces the captured
   `[rows, concepts, h, w]` activations to `[rows, concepts, 1, 1]` and
   squeezes them.
   */
  function ScoreShape(loaders: seq<seq<nat>>): seq<nat>
  {
    Squeeze([Meter.SumNat(Captured(loaders, 0)), |loaders|, 1, 1])
  }

  /**
   The auxiliary step of one batch, given where the hook goes (the result of
   `Locate` for the configured block).
   */
  function AuxIteration(hook: Result<HookSite, HookError>, loaders: seq<seq<nat>>): Run
  {
    match hook
    case Err(BlockIndexOutOfRange) => Run([], Some(HookIndexOutOfRange))
    case Err(NoStageMatches) => Run(CapturePasses(loaders, 0, false), Some(NothingCaptured))
    case Ok(site) =>
      var events := [RegisterHook(site.stage, site.block)] + CapturePasses(loaders, 0, true);
      var scores := ScoreShape(loaders);
      if |Captured(loaders, 0)| == 0 then Run(events, Some(NothingCaptured))
      else if |scores| < 2 then Run(events, Some(FlatScores))
      else if scores[0] == 0 then Run(events, Some(NoConceptRows))
      else Run(events + AuxUpdate(), None)
  }

  /** The auxiliary update and the removal of the hook. */
  function AuxUpdate(): seq<Event>
  {
    [ZeroGrad, Backward, Step, RemoveHook]
  }

  /** Batches `0 .. n-1`, stopping at the first exception. */
  function BaselineBatches(n: nat, hook: Result<HookSite, HookError>, loaders: seq<seq<nat>>): Run
  {
    if n == 0 then Run([], None)
    else
      var prev := BaselineBatches(n - 1, hook, loaders);
      if prev.failure.Some? then prev
      else if AuxAt(n - 1) then
        var aux := AuxIteration(hook, loaders);
        if aux.failure.Some? then Run(prev.events + aux.events, aux.failure)
        else Run(prev.events + aux.events + OrdinaryStep(), None)
      else Run(prev.events + OrdinaryStep(), None)
  }

  /**
   `train_baseline` over an epoch of `n` batches. The block is located anew
   at every auxiliary step from the same `layer` and `layers`, so it is the
   same block every time.
   */
  function TrainBaseline(n: nat, layer: int, layers: seq<nat>, loaders: seq<seq<nat>>): Run
    requires |layers| == 4
  {
    var r := BaselineBatches(n, Locate(layer, layers), loaders);
    Run([SetTrain] + r.events, r.failure)
  }

  // ---------------------------------------------------------------------------
  // What is captured and the labels it is paired with

  /** The captured list is empty exactly when no concept loader yields a batch. */
  lemma {:induction false} CapturedEmpty(loaders: seq<seq<nat>>, c: nat)
    ensures |Captured(loaders, c)| == 0 <==> !HasConceptBatch(loaders, c)
    decreases |loaders| - c
  {
    if c < |loaders| {
      CapturedEmpty(loaders, c + 1);
      if HasConceptBatch(loaders, c) && |loaders[c]| == 0 {
        var d :| c <= d < |loaders| && |loaders[d]| > 0;
        assert d != c;
      }
    }
  }

  /**
   `squeeze()` drops exactly the dimensions of size 1 and keeps every other
   size as often as it occurs.
   */
  lemma {:induction false} SqueezeKeeps(shape: seq<nat>, d: nat)
    ensures |Squeeze(shape)| == |shape| - Accuracy.Hits(shape, 1)
    ensures Accuracy.Hits(Squeeze(shape), d) == if d == 1 then 0 else Accuracy.Hits(shape, d)
  {
    if |shape| > 0 {
      var init := shape[..|shape| - 1];
      var last := shape[|shape| - 1];
      var tail: seq<nat> := if last == 1 then [] else [last];
      SqueezeKeeps(init, d);
      Accuracy.HitsConcat(Squeeze(init), tail, d);
      Accuracy.HitsConcat(Squeeze(init), tail, 1);
      assert Accuracy.Hits(tail, d) == if last == 1 || last != d then 0 else 1 by {
        if last != 1 {
          assert tail[..0] == [];
        }
      }
    }
  }

  /**
   The pooled scores keep two dimensions exactly when there is more than one
   row and more than one concept; a single row or a single concept flattens them.
   */
  lemma PooledShape(rows: nat, concepts: nat)
    ensures Squeeze([rows, concepts, 1, 1])
         == (if rows == 1 then [] else [rows]) + (if concepts == 1 then [] else [concepts])
  {
    var s := [rows, concepts, 1, 1];
    assert s[..3][..2][..1] == [rows];
    assert s[..3][..2][..1][..0] == [];
    assert Squeeze(s[..3][..2]) == Squeeze([rows]) + (if concepts == 1 then [] else [concepts]);
  }

  /**
   The label vector has one entry per captured row: `y_var` and
   `torch.cat(inter_feature)` have the same length.
   */
  lemma {:induction false} LabelsMatchCapturedRows(loaders: seq<seq<nat>>, c: nat)
    ensures |ConceptLabels(loaders, c)| == Meter.SumNat(Captured(loaders, c))
    decreases |loaders| - c
  {
    if c < |loaders| {
      LabelsMatchCapturedRows(loaders, c + 1);
      var head: seq<nat> := if |loaders[c]| > 0 then [loaders[c][0]] else [];
      Meter.SumNatConcat(head, Captured(loaders, c + 1));
      if |loaders[c]| > 0 {
        assert Meter.SumNat(head) == loaders[c][0] by {
          assert head[..0] == [];
        }
      }
    }
  }

  /** Every label from concept `c` on names a concept `c .. |loaders|-1`. */
  lemma {:induction false} LabelsRange(loaders: seq<seq<nat>>, c: nat)
    ensures forall i :: 0 <= i < |ConceptLabels(loaders, c)| ==> c <= ConceptLabels(loaders, c)[i] < |loaders|
    decreases |loaders| - c
  {
    if c < |loaders| {
      LabelsRange(loaders, c + 1);
    }
  }

  /** The labels come in loader order: `y` is sorted. */
  lemma {:induction false} LabelsSorted(loaders: seq<seq<nat>>, c: nat)
    ensures forall i, j :: 0 <= i < j < |ConceptLabels(loaders, c)| ==>
      ConceptLabels(loaders, c)[i] <= ConceptLabels(loaders, c)[j]
    decreases |loaders| - c
  {
    if c < |loaders| {
      var head: seq<nat> := if |loaders[c]| > 0 then Repeat(c, loaders[c][0]) else [];
      var rest := ConceptLabels(loaders, c + 1);
      var y := ConceptLabels(loaders, c);
      assert y == head + rest;
      LabelsSorted(loaders, c + 1);
      LabelsRange(loaders, c + 1);
      forall i, j | 0 <= i < j < |y| ensures y[i] <= y[j] {
        if j < |head| {
          assert y[i] == c && y[j] == c;
        } else if i < |head| {
          assert y[i] == c && y[j] == rest[j - |head|];
        } else {
          assert y[i] == rest[i - |head|] && y[j] == rest[j - |head|];
        }
      }
    }
  }

  /** Concept `d` occurs in `y` exactly as many times as the first batch of its loader has rows. */
  lemma {:induction false} LabelsCount(loaders: seq<seq<nat>>, c: nat, d: nat)
    ensures Accuracy.Hits(ConceptLabels(loaders, c), d) ==
      if c <= d < |loaders| && |loaders[d]| > 0 then loaders[d][0] else 0
    decreases |loaders| - c
  {
    if c < |loaders| {
      var head: seq<nat> := if |loaders[c]| > 0 then Repeat(c, loaders[c][0]) else [];
      Accuracy.HitsConcat(head, ConceptLabels(loaders, c + 1), d);
      if |loaders[c]| > 0 {
        RepeatCount(c, loaders[c][0], d);
      }
      LabelsCount(loaders, c + 1, d);
    }
  }

  lemma {:induction false} RepeatCount(c: nat, k: nat, d: nat)
    ensures Accuracy.Hits(Repeat(c, k), d) == if d == c then k else 0
  {
    if k > 0 {
      assert Repeat(c, k)[..k - 1] == Repeat(c, k - 1);
      RepeatCount(c, k - 1, d);
    }
  }


  /** The row labels the captures of a trace stand for, in order. */
  function CaptureLabels(t: seq<Event>): seq<nat>
  {
    if |t| == 0 then []
    else (if t[0].Capture? then Repeat(t[0].concept, t[0].rows) else []) + CaptureLabels(t[1..])
  }

  lemma {:induction false} CaptureLabelsConcat(a: seq<Event>, b: seq<Event>)
    ensures CaptureLabels(a + b) == CaptureLabels(a) + CaptureLabels(b)
    decreases |a|
  {
    if |a| == 0 {
      assert a + b == b;
    } else {
      assert (a + b)[0] == a[0];
      assert (a + b)[1..] == a[1..] + b;
      CaptureLabelsConcat(a[1..], b);
    }
  }

  /**
   Row by row, `y` names the concept whose batch the hook captured in the
   same position of `torch.cat(inter_feature)`.
   */
  lemma {:induction false} LabelsFollowCaptures(loaders: seq<seq<nat>>, c: nat)
    ensures CaptureLabels(CapturePasses(loaders, c, true)) == ConceptLabels(loaders, c)
    decreases |loaders| - c
  {
    if c < |loaders| {
      var head: seq<Event> :=
        if |loaders[c]| > 0 then [ConceptForward(c)] + [Capture(c, loaders[c][0])] else [];
      CaptureLabelsConcat(head, CapturePasses(loaders, c + 1, true));
      LabelsFollowCaptures(loaders, c + 1);
      if |loaders[c]| > 0 {
        var h := [ConceptForward(c), Capture(c, loaders[c][0])];
        assert head == h;
        assert h[1..] == [Capture(c, loaders[c][0])];
        assert h[1..][1..] == [];
        assert CaptureLabels(h) == Repeat(c, loaders[c][0]) by {
          assert CaptureLabels(h[1..]) == Repeat(c, loaders[c][0]) + [];
        }
      }
    }
  }

  // ---------------------------------------------------------------------------
  // The trace of a run

  /** The concept loop is made of concept forward passes and captures only. */
  lemma {:induction false} CapturePassesEvents(loaders: seq<seq<nat>>, c: nat, hooked: bool)
    ensures forall k :: 0 <= k < |CapturePasses(loaders, c, hooked)| ==>
      CapturePasses(loaders, c, hooked)[k].ConceptForward? || CapturePasses(loaders, c, hooked)[k].Capture?
    decreases |loaders| - c
  {
    if c < |loaders| {
      CapturePassesEvents(loaders, c + 1, hooked);
    }
  }

  /**
   With the hook attached, ordinary whitening and gradients on, the concept
   loop is legal; it leaves a loss to back-propagate exactly when some loader
   yielded a batch.
   */
  lemma {:induction false} CapturePassesLegal(s: ModelState, loaders: seq<seq<nat>>, c: nat)
    requires s.hooked && s.mode == -1 && s.gradEnabled
    requires s.phase == Idle || s.phase == LossReady
    ensures Replay(s, CapturePasses(loaders, c, true))
         == Some(if HasConceptBatch(loaders, c) then s.(phase := LossReady) else s)
    decreases |loaders| - c
  {
    if c < |loaders| {
      var rest := CapturePasses(loaders, c + 1, true);
      if |loaders[c]| > 0 {
        var s1 := s.(phase := LossReady);
        var cap := Capture(c, loaders[c][0]);
        assert CapturePasses(loaders, c, true) == [ConceptForward(c)] + ([cap] + rest);
        ReplayCons(s, ConceptForward(c), [cap] + rest);
        ReplayCons(s1, cap, rest);
        CapturePassesLegal(s1, loaders, c + 1);
        assert HasConceptBatch(loaders, c);
      } else {
        assert CapturePasses(loaders, c, true) == rest;
        CapturePassesLegal(s, loaders, c + 1);
        if HasConceptBatch(loaders, c) {
          var d :| c <= d < |loaders| && |loaders[d]| > 0;
          assert HasConceptBatch(loaders, c + 1);
        }
      }
    }
  }

  /**
   The auxiliary step stops the run exactly when the hooked block cannot be
   indexed (before anything is registered); when nothing is captured (no
   stage matches `layer`, or no concept loader yields a batch); when there is
   a single concept or a single label, so that the squeezed scores have no
   class dimension; or when the captured batches have no rows at all.
   */
  lemma AuxIterationFailure(hook: Result<HookSite, HookError>, loaders: seq<seq<nat>>)
    ensures AuxIteration(hook, loaders).failure ==
      if hook == Err(BlockIndexOutOfRange) then Some(HookIndexOutOfRange)
      else if hook.Err? || !HasConceptBatch(loaders, 0) then Some(NothingCaptured)
      else if |loaders| == 1 || |ConceptLabels(loaders, 0)| == 1 then Some(FlatScores)
      else if |ConceptLabels(loaders, 0)| == 0 then Some(NoConceptRows)
      else None
  {
    CapturedEmpty(loaders, 0);
    LabelsMatchCapturedRows(loaders, 0);
    PooledShape(Meter.SumNat(Captured(loaders, 0)), |loaders|);
  }

  /**
   A completed auxiliary step is legal from `Ready` and returns to it: the
   hook is attached, the concept batches pass and are captured, one update
   follows, and the hook is removed before anything else runs.
   */
  lemma AuxIterationReady(hook: Result<HookSite, HookError>, loaders: seq<seq<nat>>)
    requires AuxIteration(hook, loaders).failure.None?
    ensures Replay(Ready, AuxIteration(hook, loaders).events) == Some(Ready)
  {
    AuxIterationFailure(hook, loaders);
    var site := hook.value;
    var reg := RegisterHook(site.stage, site.block);
    var passes := CapturePasses(loaders, 0, true);
    var s1 := Ready.(hooked := true);
    assert AuxIteration(hook, loaders).events == [reg] + (passes + AuxUpdate());
    ReplayCons(Ready, reg, passes + AuxUpdate());
    ReplayConcat(s1, passes, AuxUpdate());
    CapturePassesLegal(s1, loaders, 0);
    AuxUpdateReady();
  }

  /** The auxiliary update takes a pending concept loss back to `Ready`, removing the hook. */
  lemma AuxUpdateReady()
    ensures Replay(Ready.(hooked := true, phase := LossReady), AuxUpdate()) == Some(Ready)
  {
    var s2 := Ready.(hooked := true, phase := LossReady);
    var u := AuxUpdate();
    ReplayCons(s2, ZeroGrad, u[1..]);
    ReplayCons(s2.(phase := Zeroed), Backward, u[2..]);
    ReplayCons(s2.(phase := Graded), Step, u[3..]);
    ReplayCons(Ready.(hooked := true), RemoveHook, []);
  }

  /** Outside the registration and the concept loop, a completed auxiliary step is its update. */
  lemma AuxIterationCount(hook: Result<HookSite, HookError>, loaders: seq<seq<nat>>, e: Event)
    requires AuxIteration(hook, loaders).failure.None?
    requires !e.RegisterHook? && !e.ConceptForward? && !e.Capture?
    ensures Count(AuxIteration(hook, loaders).events, e) == Count(AuxUpdate(), e)
  {
    AuxIterationFailure(hook, loaders);
    var reg := RegisterHook(hook.value.stage, hook.value.block);
    var passes := CapturePasses(loaders, 0, true);
    assert AuxIteration(hook, loaders).events == [reg] + passes + AuxUpdate();
    CapturePassesEvents(loaders, 0, true);
    CountConcat([reg] + passes, AuxUpdate(), e);
    CountConcat([reg], passes, e);
    CountOne(reg, e);
    CountAbsent(passes, e);
  }

  /** The auxiliary update holds one optimizer step and one hook removal, and no main-task forward pass. */
  lemma AuxUpdateCounts()
    ensures Count(AuxUpdate(), Forward) == 0
    ensures Count(AuxUpdate(), Step) == 1
    ensures Count(AuxUpdate(), RemoveHook) == 1
  {
    AuxUpdateCount(Forward);
    AuxUpdateCount(Step);
    AuxUpdateCount(RemoveHook);
  }

  lemma AuxUpdateCount(e: Event)
    ensures Count(AuxUpdate(), e)
         == (if e == ZeroGrad then 1 else 0) + (if e == Backward then 1 else 0)
          + (if e == Step then 1 else 0) + (if e == RemoveHook then 1 else 0)
  {
    var a := [ZeroGrad];
    var b := a + [Backward];
    var c := b + [Step];
    assert AuxUpdate() == c + [RemoveHook];
    CountOne(ZeroGrad, e);
    CountSnoc(a, Backward, e);
    CountSnoc(b, Step, e);
    CountSnoc(c, RemoveHook, e);
  }

  /** The number of auxiliary steps among the first `n` batches. */
  lemma AuxCountStep(n: nat)
    requires n > 0
    ensures n / AuxEvery == (n - 1) / AuxEvery + (if AuxAt(n - 1) then 1 else 0)
  {
  }

  /** When the auxiliary step succeeds (or never comes), a batch appends its events to the run. */
  lemma {:induction false} BaselineNoFailure(n: nat, hook: Result<HookSite, HookError>, loaders: seq<seq<nat>>)
    requires n < AuxEvery || AuxIteration(hook, loaders).failure.None?
    ensures BaselineBatches(n, hook, loaders).failure.None?
    ensures n > 0 ==>
      BaselineBatches(n, hook, loaders).events
        == BaselineBatches(n - 1, hook, loaders).events
         + ((if AuxAt(n - 1) then AuxIteration(hook, loaders).events else []) + OrdinaryStep())
  {
    if n > 0 {
      BaselineNoFailure(n - 1, hook, loaders);
    }
  }

  /**
   When the auxiliary step succeeds (or never comes, in an epoch shorter
   than 20 batches) the run completes: it is legal from `Ready` and returns
   to it, so no hook is left attached.
   */
  lemma {:induction false} BaselineCompletes(n: nat, hook: Result<HookSite, HookError>, loaders: seq<seq<nat>>)
    requires n < AuxEvery || AuxIteration(hook, loaders).failure.None?
    ensures BaselineBatches(n, hook, loaders).failure.None?
    ensures Replay(Ready, BaselineBatches(n, hook, loaders).events) == Some(Ready)
  {
    BaselineNoFailure(n, hook, loaders);
    if n > 0 {
      var prev := BaselineBatches(n - 1, hook, loaders);
      BaselineCompletes(n - 1, hook, loaders);
      OrdinaryStepReady();
      var aux: seq<Event> := if AuxAt(n - 1) then AuxIteration(hook, loaders).events else [];
      ReplayConcat(Ready, prev.events, aux + OrdinaryStep());
      ReplayConcat(Ready, aux, OrdinaryStep());
      if AuxAt(n - 1) {
        AuxIterationReady(hook, loaders);
      }
    }
  }

  /** A completed auxiliary step has no main-task forward pass, one optimizer step and one hook removal. */
  lemma AuxIterationCounts(hook: Result<HookSite, HookError>, loaders: seq<seq<nat>>)
    requires AuxIteration(hook, loaders).failure.None?
    ensures Count(AuxIteration(hook, loaders).events, Forward) == 0
    ensures Count(AuxIteration(hook, loaders).events, Step) == 1
    ensures Count(AuxIteration(hook, loaders).events, RemoveHook) == 1
  {
    AuxIterationCount(hook, loaders, Forward);
    AuxIterationCount(hook, loaders, Step);
    AuxIterationCount(hook, loaders, RemoveHook);
    AuxUpdateCounts();
  }

  /** Batch `n - 1` of a completed run adds its auxiliary step's events and one ordinary update. */
  lemma BatchCount(n: nat, hook: Result<HookSite, HookError>, loaders: seq<seq<nat>>, e: Event)
    requires 0 < n
    requires n < AuxEvery || AuxIteration(hook, loaders).failure.None?
    ensures Count(BaselineBatches(n, hook, loaders).events, e)
         == Count(BaselineBatches(n - 1, hook, loaders).events, e)
          + (if AuxAt(n - 1) then Count(AuxIteration(hook, loaders).events, e) else 0)
          + (if UpdateEvent(e) then 1 else 0)
  {
    BaselineNoFailure(n, hook, loaders);
    var prev := BaselineBatches(n - 1, hook, loaders);
    var aux: seq<Event> := if AuxAt(n - 1) then AuxIteration(hook, loaders).events else [];
    CountConcat(prev.events, aux + OrdinaryStep(), e);
    CountConcat(aux, OrdinaryStep(), e);
    OrdinaryStepCounts(e);
  }

  /**
   A completed run over `n` batches has `n` main-task forward passes,
   `n + n / 20` optimizer steps (two on every 20th batch, one on every
   other), and removes the hook `n / 20` times.
   */
  lemma BaselineCounts(n: nat, hook: Result<HookSite, HookError>, loaders: seq<seq<nat>>)
    requires n < AuxEvery || AuxIteration(hook, loaders).failure.None?
    ensures Count(BaselineBatches(n, hook, loaders).events, Forward) == n
    ensures Count(BaselineBatches(n, hook, loaders).events, Step) == n + n / AuxEvery
    ensures Count(BaselineBatches(n, hook, loaders).events, RemoveHook) == n / AuxEvery
  {
    BaselineForwards(n, hook, loaders);
    BaselineSteps(n, hook, loaders);
    BaselineRemovals(n, hook, loaders);
  }

  lemma {:induction false} BaselineForwards(n: nat, hook: Result<HookSite, HookError>, loaders: seq<seq<nat>>)
    requires n < AuxEvery || AuxIteration(hook, loaders).failure.None?
    ensures Count(BaselineBatches(n, hook, loaders).events, Forward) == n
  {
    if n > 0 {
      BaselineForwards(n - 1, hook, loaders);
      BatchCount(n, hook, loaders, Forward);
      if AuxAt(n - 1) {
        AuxIterationCounts(hook, loaders);
      }
    }
  }

  lemma {:induction false} BaselineSteps(n: nat, hook: Result<HookSite, HookError>, loaders: seq<seq<nat>>)
    requires n < AuxEvery || AuxIteration(hook, loaders).failure.None?
    ensures Count(BaselineBatches(n, hook, loaders).events, Step) == n + n / AuxEvery
  {
    if n > 0 {
      BaselineSteps(n - 1, hook, loaders);
      AuxCountStep(n);
      BatchCount(n, hook, loaders, Step);
      if AuxAt(n - 1) {
        AuxIterationCounts(hook, loaders);
      }
    }
  }

  lemma {:induction false} BaselineRemovals(n: nat, hook: Result<HookSite, HookError>, loaders: seq<seq<nat>>)
    requires n < AuxEvery || AuxIteration(hook, loaders).failure.None?
    ensures Count(BaselineBatches(n, hook, loaders).events, RemoveHook) == n / AuxEvery
  {
    if n > 0 {
      BaselineRemovals(n - 1, hook, loaders);
      AuxCountStep(n);
      BatchCount(n, hook, loaders, RemoveHook);
      if AuxAt(n - 1) {
        AuxIterationCounts(hook, loaders);
      }
    }
  }


  /**
   When the auxiliary step fails, the run stops in batch 19, the first
   auxiliary one, after the ordinary updates of batches 0 to 18 and the part
   of the auxiliary step that ran.
   */
  lemma {:induction false} BaselineFails(n: nat, hook: Result<HookSite, HookError>, loaders: seq<seq<nat>>)
    requires n >= AuxEvery
    requires AuxIteration(hook, loaders).failure.Some?
    ensures BaselineBatches(n, hook, loaders).failure == AuxIteration(hook, loaders).failure
    ensures BaselineBatches(n, hook, loaders).events
         == BaselineBatches(AuxEvery - 1, hook, loaders).events + AuxIteration(hook, loaders).events
  {
    if n > AuxEvery {
      BaselineFails(n - 1, hook, loaders);
    } else {
      BaselineCompletes(n - 1, hook, loaders);
    }
  }

  /**
   From a fresh model a completed epoch keeps the discipline of `Apply`:
   concept batches pass only while the hook is attached, the main-task batch
   only after it is removed, and every update is `zero_grad`, `backward`,
   `step` in train mode. The epoch ends with no hook attached.
   */
  lemma TrainBaselineLegal(s: ModelState, n: nat, layer: int, layers: seq<nat>, loaders: seq<seq<nat>>)
    requires Fresh(s)
    requires |layers| == 4
    requires n < AuxEvery || AuxIteration(Locate(layer, layers), loaders).failure.None?
    ensures TrainBaseline(n, layer, layers, loaders).failure.None?
    ensures Replay(s, TrainBaseline(n, layer, layers, loaders).events) == Some(Ready)
  {
    var r := BaselineBatches(n, Locate(layer, layers), loaders);
    BaselineCompletes(n, Locate(layer, layers), loaders);
    ReplayCons(s, SetTrain, r.events);
    assert s.(training := true) == Ready;
  }

  /** The concept loop is empty exactly when no concept loader from `c` on yields a batch. */
  lemma {:induction false} CapturePassesEmpty(loaders: seq<seq<nat>>, c: nat, hooked: bool)
    ensures |CapturePasses(loaders, c, hooked)| == 0 <==> !HasConceptBatch(loaders, c)
    decreases |loaders| - c
  {
    if c < |loaders| {
      CapturePassesEmpty(loaders, c + 1, hooked);
      if HasConceptBatch(loaders, c) && |loaders[c]| == 0 {
        var d :| c <= d < |loaders| && |loaders[d]| > 0;
        assert d != c;
      }
    }
  }

  /**
   When no stage matches `layer`, no hook is registered, yet every non-empty
   concept loader's batch still goes through the model before `torch.cat`
   fails. Those passes reach no hook, so the discipline of `Apply` rejects
   the run exactly when some loader yields a batch.
   */
  lemma NoStageRunUnhooked(loaders: seq<seq<nat>>)
    ensures AuxIteration(Err(NoStageMatches), loaders).failure == Some(NothingCaptured)
    ensures Replay(Ready, AuxIteration(Err(NoStageMatches), loaders).events) == None
        <==> HasConceptBatch(loaders, 0)
  {
    var t := CapturePasses(loaders, 0, false);
    CapturePassesEmpty(loaders, 0, false);
    if |t| > 0 {
      CapturePassesEvents(loaders, 0, false);
      assert t[0].ConceptForward? || t[0].Capture?;
    }
  }

  /**
   The hook is not removed on the failure path: when the block is found but
   no concept loader yields a batch, `torch.cat` fails with the hook still
   attached.
   */
  lemma HookLeftAttachedOnFailure(s: ModelState, n: nat, layer: int, layers: seq<nat>, loaders: seq<seq<nat>>)
    requires Fresh(s)
    requires |layers| == 4
    requires n >= AuxEvery
    requires Locate(layer, layers).Ok?
    requires !HasConceptBatch(loaders, 0)
    ensures TrainBaseline(n, layer, layers, loaders).failure == Some(NothingCaptured)
    ensures Replay(s, TrainBaseline(n, layer, layers, loaders).events) == Some(Ready.(hooked := true))
  {
    var hook := Locate(layer, layers);
    AuxIterationFailure(hook, loaders);
    BaselineFails(n, hook, loaders);
    var prev := BaselineBatches(AuxEvery - 1, hook, loaders);
    BaselineCompletes(AuxEvery - 1, hook, loaders);
    var site := hook.value;
    var reg := RegisterHook(site.stage, site.block);
    var passes := CapturePasses(loaders, 0, true);
    assert AuxIteration(hook, loaders).events == [reg] + passes;
    ReplayCons(s, SetTrain, prev.events + ([reg] + passes));
    assert s.(training := true) == Ready;
    ReplayConcat(Ready, prev.events, [reg] + passes);
    ReplayCons(Ready, reg, passes);
    CapturePassesLegal(Ready.(hooked := true), loaders, 0);
  }

  /**
   The hook is not removed either when the concept loss or `accuracy` fails:
   with a single concept loader, a single concept label or no rows at all,
   the run stops in batch 19 after the concept batches were captured, with
   the hook attached and their loss never back-propagated.
   */
  lemma HookLeftAttachedOnScores(s: ModelState, n: nat, layer: int, layers: seq<nat>, loaders: seq<seq<nat>>)
    requires Fresh(s)
    requires |layers| == 4
    requires n >= AuxEvery
    requires Locate(layer, layers).Ok?
    requires HasConceptBatch(loaders, 0)
    requires |loaders| == 1 || |ConceptLabels(loaders, 0)| <= 1
    ensures TrainBaseline(n, layer, layers, loaders).failure
         == Some(if |loaders| == 1 || |ConceptLabels(loaders, 0)| == 1 then FlatScores else NoConceptRows)
    ensures Replay(s, TrainBaseline(n, layer, layers, loaders).events)
         == Some(Ready.(hooked := true, phase := LossReady))
  {
    var hook := Locate(layer, layers);
    AuxIterationFailure(hook, loaders);
    BaselineFails(n, hook, loaders);
    var prev := BaselineBatches(AuxEvery - 1, hook, loaders);
    BaselineCompletes(AuxEvery - 1, hook, loaders);
    var site := hook.value;
    var reg := RegisterHook(site.stage, site.block);
    var passes := CapturePasses(loaders, 0, true);
    assert AuxIteration(hook, loaders).events == [reg] + passes;
    ReplayCons(s, SetTrain, prev.events + ([reg] + passes));
    assert s.(training := true) == Ready;
    ReplayConcat(Ready, prev.events, [reg] + passes);
    ReplayCons(Ready, reg, passes);
    CapturePassesLegal(Ready.(hooked := true), loaders, 0);
  }

  /** With one concept loader of 64 images, or one image in total, the scores are flat. */
  lemma FlatScoresExample()
    ensures AuxIteration(Ok(HookSite(3, 1)), [[64]]).failure == Some(FlatScores)
    ensures AuxIteration(Ok(HookSite(3, 1)), [[1], [], []]).failure == Some(FlatScores)
    ensures AuxIteration(Ok(HookSite(3, 1)), [[2], [], [3]]).failure.None?
  {
    AuxIterationFailure(Ok(HookSite(3, 1)), [[64]]);
    assert ConceptLabels([[64]], 1) == [];
    AuxIterationFailure(Ok(HookSite(3, 1)), [[1], [], []]);
    LabelsMatchCapturedRows([[1], [], []], 0);
    AuxIterationFailure(Ok(HookSite(3, 1)), [[2], [], [3]]);
    LabelsMatchCapturedRows([[2], [], [3]], 0);
  }
}
