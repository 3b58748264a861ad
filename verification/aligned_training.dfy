/**
 The control skeleton of `train` in train_places.py, the concept-whitening
 loop, as the trace of calls it makes on the model and the optimizer.

 The inputs are the number of main-task batches of the epoch and, per
 concept loader, the sizes of the batches it would yield; only whether a
 loader yields anything matters here, since its first batch is taken and the
 loop over it is left at once.
 */
module AlignedTraining {
  import opened Wrappers
  import opened Events

  /** An alignment cycle runs before the ordinary update of every 30th batch. */
  const AlignEvery: nat := 30

  predicate AlignsAt(i: nat)
  {
    (i + 1) % AlignEvery == 0
  }

  /**
   The concept loop of one alignment cycle from concept `c` on: switch the
   whitening layer to concept `c`, push the first batch of its loader (if
   any) through the model, move to the next concept.
   */
  function ConceptPasses(loaders: seq<seq<nat>>, c: nat): seq<Event>
    decreases |loaders| - c
  {
    if c >= |loaders| then []
    else
      [ChangeMode(c)]
        + (if |loaders[c]| > 0 then [ConceptForward(c)] else [])
        + ConceptPasses(loaders, c + 1)
  }

  /** The events before the concept passes of an alignment cycle: eval mode, no gradients. */
  function CycleHead(): seq<Event>
  {
    [SetEval, GradOff]
  }

  /** The events after them: rotation update, ordinary whitening, gradients back on, train mode. */
  function CycleTail(): seq<Event>
  {
    [UpdateRotation, ChangeMode(-1), GradOn, SetTrain]
  }

  /**
   One alignment cycle: eval mode and no gradients around the concept
   passes, the rotation update and the return to ordinary whitening; then
   back to train mode.
   */
  function AlignCycle(loaders: seq<seq<nat>>): seq<Event>
  {
    CycleHead() + ConceptPasses(loaders, 0) + CycleTail()
  }

  /** The events of batch `i`. */
  function BatchEvents(i: nat, loaders: seq<seq<nat>>): seq<Event>
  {
    (if AlignsAt(i) then AlignCycle(loaders) else []) + OrdinaryStep()
  }

  /** The events of batches `0 .. n-1`. */
  function Batches(n: nat, loaders: seq<seq<nat>>): seq<Event>
  {
    if n == 0 then [] else Batches(n - 1, loaders) + BatchEvents(n - 1, loaders)
  }

  /** `train` over an epoch of `n` batches. */
  function Train(n: nat, loaders: seq<seq<nat>>): seq<Event>
  {
    [SetTrain] + Batches(n, loaders)
  }

  /**
   In eval mode without gradients and with nothing pending, the concept
   passes are legal; they change nothing but the whitening mode, which ends
   at the last concept.
   */
  lemma {:induction false} ConceptPassesLegal(s: ModelState, loaders: seq<seq<nat>>, c: nat)
    requires !s.training && !s.gradEnabled && s.phase == Idle
    ensures Replay(s, ConceptPasses(loaders, c))
            == Some(if c < |loaders| then s.(mode := |loaders| - 1) else s)
    decreases |loaders| - c
  {
    if c < |loaders| {
      var s1 := s.(mode := c);
      var fwd: seq<Event> := if |loaders[c]| > 0 then [ConceptForward(c)] else [];
      var rest := ConceptPasses(loaders, c + 1);
      assert ConceptPasses(loaders, c) == [ChangeMode(c)] + (fwd + rest);
      ReplayCons(s, ChangeMode(c), fwd + rest);
      ReplayConcat(s1, fwd, rest);
      if |loaders[c]| > 0 {
        ReplayCons(s1, ConceptForward(c), []);
      }
      ConceptPassesLegal(s1, loaders, c + 1);
    }
  }

  /** An alignment cycle is legal from `Ready` and returns to `Ready`. */
  lemma AlignCycleReady(loaders: seq<seq<nat>>)
    ensures Replay(Ready, AlignCycle(loaders)) == Some(Ready)
  {
    var s1 := Ready.(training := false);
    var s2 := s1.(gradEnabled := false);
    var passes := ConceptPasses(loaders, 0);
    var s3 := if 0 < |loaders| then s2.(mode := |loaders| - 1) else s2;
    var tail: seq<Event> := [UpdateRotation, ChangeMode(-1), GradOn, SetTrain];
    assert AlignCycle(loaders) == [SetEval] + ([GradOff] + (passes + tail));
    ReplayCons(Ready, SetEval, [GradOff] + (passes + tail));
    ReplayCons(s1, GradOff, passes + tail);
    ReplayConcat(s2, passes, tail);
    ConceptPassesLegal(s2, loaders, 0);
    ReplayCons(s3, UpdateRotation, tail[1..]);
    var s4 := s3.(mode := -1);
    ReplayCons(s3, ChangeMode(-1), tail[2..]);
    ReplayCons(s4, GradOn, tail[3..]);
    ReplayCons(s4.(gradEnabled := true), SetTrain, []);
  }

  /** Every batch, with or without an alignment cycle, is legal from `Ready` and returns to it. */
  lemma BatchEventsReady(i: nat, loaders: seq<seq<nat>>)
    ensures Replay(Ready, BatchEvents(i, loaders)) == Some(Ready)
  {
    var align := if AlignsAt(i) then AlignCycle(loaders) else [];
    ReplayConcat(Ready, align, OrdinaryStep());
    if AlignsAt(i) {
      AlignCycleReady(loaders);
    }
    OrdinaryStepReady();
  }

  lemma {:induction false} BatchesReady(n: nat, loaders: seq<seq<nat>>)
    ensures Replay(Ready, Batches(n, loaders)) == Some(Ready)
  {
    if n > 0 {
      BatchesReady(n - 1, loaders);
      ReplayConcat(Ready, Batches(n - 1, loaders), BatchEvents(n - 1, loaders));
      BatchEventsReady(n - 1, loaders);
    }
  }

  /**
   From any fresh model state, the whole epoch keeps the discipline of
   `Apply` (in particular no optimizer step, `zero_grad` or `backward` while
   aligning, and no mode switch while training) and ends in train mode with
   ordinary whitening.
   */
  lemma TrainLegal(s: ModelState, n: nat, loaders: seq<seq<nat>>)
    requires Fresh(s)
    ensures Replay(s, Train(n, loaders)) == Some(Ready)
  {
    ReplayCons(s, SetTrain, Batches(n, loaders));
    assert s.(training := true) == Ready;
    BatchesReady(n, loaders);
  }

  /** The concept passes hold mode switches and concept forward passes only, one switch per concept. */
  lemma {:induction false} ConceptPassesCounts(loaders: seq<seq<nat>>, c: nat, e: Event)
    ensures e.ChangeMode? ==> Count(ConceptPasses(loaders, c), e) == if c <= e.mode < |loaders| then 1 else 0
    ensures e.ConceptForward? ==>
      Count(ConceptPasses(loaders, c), e) == if c <= e.concept < |loaders| && |loaders[e.concept]| > 0 then 1 else 0
    ensures !e.ChangeMode? && !e.ConceptForward? ==> Count(ConceptPasses(loaders, c), e) == 0
    decreases |loaders| - c
  {
    if c < |loaders| {
      ConceptPassStep(loaders, c, e);
      ConceptPassesCounts(loaders, c + 1, e);
    }
  }

  /** The passes of concept `c`: its mode switch and, if its loader yields a batch, its forward pass. */
  lemma ConceptPassStep(loaders: seq<seq<nat>>, c: nat, e: Event)
    requires c < |loaders|
    ensures Count(ConceptPasses(loaders, c), e)
         == (if e == ChangeMode(c) then 1 else 0)
          + (if |loaders[c]| > 0 && e == ConceptForward(c) then 1 else 0)
          + Count(ConceptPasses(loaders, c + 1), e)
  {
    var fwd: seq<Event> := if |loaders[c]| > 0 then [ConceptForward(c)] else [];
    var rest := ConceptPasses(loaders, c + 1);
    CountConcat([ChangeMode(c)] + fwd, rest, e);
    CountConcat([ChangeMode(c)], fwd, e);
    CountOne(ChangeMode(c), e);
    if |loaders[c]| > 0 {
      CountOne(ConceptForward(c), e);
    }
  }

  lemma AlignCycleSplit(loaders: seq<seq<nat>>, e: Event)
    ensures Count(AlignCycle(loaders), e)
         == Count(CycleHead(), e) + Count(ConceptPasses(loaders, 0), e) + Count(CycleTail(), e)
  {
    var passes := ConceptPasses(loaders, 0);
    assert AlignCycle(loaders) == CycleHead() + passes + CycleTail();
    CountConcat(CycleHead() + passes, CycleTail(), e);
    CountConcat(CycleHead(), passes, e);
  }

  /**
   An alignment cycle performs no forward pass of a main-task batch and no
   `zero_grad`, `backward` or optimizer step.
   */
  lemma AlignCycleNoUpdate(loaders: seq<seq<nat>>, e: Event)
    requires UpdateEvent(e)
    ensures Count(AlignCycle(loaders), e) == 0
  {
    AlignCycleSplit(loaders, e);
    ConceptPassesCounts(loaders, 0, e);
    CountAbsent(CycleHead(), e);
    CountAbsent(CycleTail(), e);
  }

  /** An alignment cycle updates the rotation exactly once. */
  lemma AlignCycleRotation(loaders: seq<seq<nat>>)
    ensures Count(AlignCycle(loaders), UpdateRotation) == 1
  {
    AlignCycleSplit(loaders, UpdateRotation);
    ConceptPassesCounts(loaders, 0, UpdateRotation);
    CountAbsent(CycleHead(), UpdateRotation);
    assert CycleTail() == [UpdateRotation] + CycleTail()[1..];
    CountConcat([UpdateRotation], CycleTail()[1..], UpdateRotation);
    CountOne(UpdateRotation, UpdateRotation);
    CountAbsent(CycleTail()[1..], UpdateRotation);
  }

  /** An alignment cycle passes the first batch of every non-empty concept loader exactly once. */
  lemma AlignCycleConceptForward(loaders: seq<seq<nat>>, c: nat)
    ensures Count(AlignCycle(loaders), ConceptForward(c)) == if c < |loaders| && |loaders[c]| > 0 then 1 else 0
  {
    AlignCycleSplit(loaders, ConceptForward(c));
    ConceptPassesCounts(loaders, 0, ConceptForward(c));
    CountAbsent(CycleHead(), ConceptForward(c));
    CountAbsent(CycleTail(), ConceptForward(c));
  }

  lemma BatchesSplit(n: nat, loaders: seq<seq<nat>>, e: Event)
    requires n > 0
    ensures Count(Batches(n, loaders), e)
         == Count(Batches(n - 1, loaders), e)
          + (if AlignsAt(n - 1) then Count(AlignCycle(loaders), e) else 0)
          + Count(OrdinaryStep(), e)
  {
    var align := if AlignsAt(n - 1) then AlignCycle(loaders) else [];
    assert Batches(n, loaders) == Batches(n - 1, loaders) + (align + OrdinaryStep());
    CountConcat(Batches(n - 1, loaders), align + OrdinaryStep(), e);
    CountConcat(align, OrdinaryStep(), e);
  }

  /**
   After the first `n` batches there have been exactly `n` main-task forward
   passes, `zero_grad`s, `backward`s and optimizer steps: one of each per batch.
   */
  lemma {:induction false} BatchesUpdates(n: nat, loaders: seq<seq<nat>>, e: Event)
    requires UpdateEvent(e)
    ensures Count(Batches(n, loaders), e) == n
  {
    if n > 0 {
      BatchesSplit(n, loaders, e);
      BatchesUpdates(n - 1, loaders, e);
      AlignCycleNoUpdate(loaders, e);
      OrdinaryStepCounts(e);
    }
  }

  /** Cadence: after the first `n` batches there have been exactly `n / 30` alignment cycles. */
  lemma {:induction false} BatchesRotations(n: nat, loaders: seq<seq<nat>>)
    ensures Count(Batches(n, loaders), UpdateRotation) == n / AlignEvery
  {
    if n > 0 {
      BatchesSplit(n, loaders, UpdateRotation);
      BatchesRotations(n - 1, loaders);
      AlignCycleRotation(loaders);
      OrdinaryStepCounts(UpdateRotation);
      CycleCountStep(n);
    }
  }

  /**
   Each of those cycles passed every non-empty concept loader's first batch
   once, and an empty loader never.
   */
  lemma {:induction false} BatchesConceptForwards(n: nat, loaders: seq<seq<nat>>, c: nat)
    ensures Count(Batches(n, loaders), ConceptForward(c))
         == if c < |loaders| && |loaders[c]| > 0 then n / AlignEvery else 0
  {
    if n > 0 {
      BatchesSplit(n, loaders, ConceptForward(c));
      BatchesConceptForwards(n - 1, loaders, c);
      AlignCycleConceptForward(loaders, c);
      OrdinaryStepCounts(ConceptForward(c));
      CycleCountStep(n);
    }
  }

  lemma CycleCountStep(n: nat)
    requires n > 0
    ensures n / AlignEvery == (n - 1) / AlignEvery + (if AlignsAt(n - 1) then 1 else 0)
  {
  }

  /**
   The trace of an epoch begins with the trace of each shorter epoch, so the
   counts above hold after every batch of a longer epoch too.
   */
  lemma {:induction false} BatchesPrefix(m: nat, n: nat, loaders: seq<seq<nat>>)
    requires m <= n
    ensures |Batches(m, loaders)| <= |Batches(n, loaders)|
    ensures Batches(n, loaders)[..|Batches(m, loaders)|] == Batches(m, loaders)
    decreases n
  {
    if m < n {
      BatchesPrefix(m, n - 1, loaders);
      var p := Batches(n - 1, loaders);
      assert Batches(n, loaders)[..|p|] == p;
    }
  }

  /** The example of 90 batches: three alignment cycles and ninety optimizer steps. */
  lemma NinetyBatches(loaders: seq<seq<nat>>)
    ensures Count(Train(90, loaders), UpdateRotation) == 3
    ensures Steps(Train(90, loaders)) == 90
  {
    BatchesRotations(90, loaders);
    BatchesUpdates(90, loaders, Step);
    CountConcat([SetTrain], Batches(90, loaders), UpdateRotation);
    CountConcat([SetTrain], Batches(90, loaders), Step);
    CountOne(SetTrain, UpdateRotation);
    CountOne(SetTrain, Step);
  }

  /** A mode switch or a rotation update. */
  predicate ModeEvent(e: Event)
  {
    e.ChangeMode? || e.UpdateRotation?
  }

  /** The mode switches and rotation updates of a trace, in order. */
  function ModeEvents(t: seq<Event>): seq<Event>
  {
    if |t| == 0 then []
    else (if ModeEvent(t[0]) then [t[0]] else []) + ModeEvents(t[1..])
  }

  lemma {:induction false} ModeEventsConcat(a: seq<Event>, b: seq<Event>)
    ensures ModeEvents(a + b) == ModeEvents(a) + ModeEvents(b)
    decreases |a|
  {
    if |a| == 0 {
      assert a + b == b;
    } else {
      var head: seq<Event> := if ModeEvent(a[0]) then [a[0]] else [];
      assert (a + b)[0] == a[0];
      assert (a + b)[1..] == a[1..] + b;
      assert ModeEvents(a + b) == head + ModeEvents(a[1..] + b);
      ModeEventsConcat(a[1..], b);
      assert ModeEvents(a) == head + ModeEvents(a[1..]);
    }
  }

  /** Mode switches to `c, c+1, ..., m-1`. */
  function ModeRun(c: nat, m: nat): (r: seq<Event>)
    ensures |r| == if c <= m then m - c else 0
    ensures forall i :: 0 <= i < |r| ==> r[i] == ChangeMode(c + i)
    decreases m - c
  {
    if c >= m then [] else [ChangeMode(c)] + ModeRun(c + 1, m)
  }

  /** The mode sequence of a cycle over `m` concepts: modes `0 .. m-1`, the rotation update, mode -1. */
  function ModeSchedule(m: nat): seq<Event>
  {
    ModeRun(0, m) + [UpdateRotation, ChangeMode(-1)]
  }

  lemma {:induction false} ConceptPassesModes(loaders: seq<seq<nat>>, c: nat)
    requires c <= |loaders|
    ensures ModeEvents(ConceptPasses(loaders, c)) == ModeRun(c, |loaders|)
    decreases |loaders| - c
  {
    if c < |loaders| {
      var fwd: seq<Event> := if |loaders[c]| > 0 then [ConceptForward(c)] else [];
      var rest := ConceptPasses(loaders, c + 1);
      ModeEventsConcat([ChangeMode(c)] + fwd, rest);
      ModeEventsConcat([ChangeMode(c)], fwd);
      assert ModeEvents([ChangeMode(c)]) == [ChangeMode(c)] by {
        assert [ChangeMode(c)][1..] == [];
      }
      assert ModeEvents(fwd) == [] by {
        if |loaders[c]| > 0 {
          assert fwd[1..] == [];
        }
      }
      ConceptPassesModes(loaders, c + 1);
    }
  }

  /**
   Inside an alignment cycle the whitening layer is switched to concepts
   `0, 1, ..., m-1` in order, the rotation is updated once, and the layer is
   switched back to ordinary whitening.
   */
  lemma AlignCycleModes(loaders: seq<seq<nat>>)
    ensures ModeEvents(AlignCycle(loaders)) == ModeSchedule(|loaders|)
  {
    var passes := ConceptPasses(loaders, 0);
    ModeEventsConcat(CycleHead() + passes, CycleTail());
    ModeEventsConcat(CycleHead(), passes);
    ConceptPassesModes(loaders, 0);
    CycleHeadModes();
    CycleTailModes();
    assert [] + ModeRun(0, |loaders|) == ModeRun(0, |loaders|);
  }

  lemma CycleHeadModes()
    ensures ModeEvents(CycleHead()) == []
  {
    assert CycleHead() == [SetEval] + [GradOff];
    ModeEventsConcat([SetEval], [GradOff]);
    ModeEventsOne(SetEval);
    ModeEventsOne(GradOff);
  }

  lemma CycleTailModes()
    ensures ModeEvents(CycleTail()) == [UpdateRotation, ChangeMode(-1)]
  {
    assert CycleTail() == ([UpdateRotation] + [ChangeMode(-1)]) + ([GradOn] + [SetTrain]);
    ModeEventsConcat([UpdateRotation] + [ChangeMode(-1)], [GradOn] + [SetTrain]);
    ModeEventsConcat([UpdateRotation], [ChangeMode(-1)]);
    ModeEventsConcat([GradOn], [SetTrain]);
    ModeEventsOne(UpdateRotation);
    ModeEventsOne(ChangeMode(-1));
    ModeEventsOne(GradOn);
    ModeEventsOne(SetTrain);
  }

  lemma ModeEventsOne(x: Event)
    ensures ModeEvents([x]) == if ModeEvent(x) then [x] else []
  {
    assert [x][1..] == [];
  }

}
