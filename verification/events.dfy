/**
 The vocabulary shared by both training loops of train_places.py: the calls
 a loop makes on the model and the optimizer, as events, and the model state
 those calls act on. The whitening mathematics behind `change_mode` and
 `update_rotation_matrix` is not modelled; both are opaque events.

 `Apply` is the discipline the loops are meant to keep. A trace is legal when
 every event is allowed in the state the previous events left behind.
 */
module Events {
  import opened Wrappers

  datatype Event =
    | SetTrain                              // `model.train()`
    | SetEval                               // `model.eval()`
    | GradOff                               // entering `torch.no_grad()`
    | GradOn                                // leaving it
    | ChangeMode(mode: int)                 // `change_mode(mode)`; -1 is ordinary whitening
    | ConceptForward(concept: nat)          // forward pass of a concept batch
    | Capture(concept: nat, rows: nat)      // the hook copies that batch's activations
    | UpdateRotation                        // `update_rotation_matrix()`
    | RegisterHook(stage: nat, block: nat)  // `bn1.register_forward_hook(hookf)`
    | RemoveHook                            // `hook.remove()`
    | Forward                               // forward pass of a main-task batch
    | ZeroGrad                              // `optimizer.zero_grad()`
    | Backward                              // `loss.backward()`
    | Step                                  // `optimizer.step()`

  /** Progress of the gradient step: nothing pending, loss computed, gradients zeroed, gradients computed. */
  datatype Phase = Idle | LossReady | Zeroed | Graded

  datatype ModelState = ModelState(
    training: bool,     // train mode (batch statistics update) or eval mode
    gradEnabled: bool,  // outside `torch.no_grad()`
    mode: int,          // the whitening mode set by `change_mode`
    hooked: bool,       // an activation hook is attached
    phase: Phase)

  /** Train mode, gradients on, ordinary whitening, no hook, nothing pending. */
  const Ready: ModelState := ModelState(true, true, -1, false, Idle)

  /** A state a training loop may start from: anything but the train/eval flag as in `Ready`. */
  predicate Fresh(s: ModelState)
  {
    s.gradEnabled && s.mode == -1 && !s.hooked && s.phase == Idle
  }

  /**
   One event. Mode switches and rotation updates happen only in eval mode
   without gradients; a concept batch goes either to the whitening mode of
   its own concept or, under ordinary whitening, through an attached hook; a
   main-task forward pass runs in train mode, with ordinary whitening and no
   hook; `zero_grad`, `backward` and `step` follow a loss in that order, in
   train mode with gradients on.
   */
  function Apply(s: ModelState, e: Event): Option<ModelState>
  {
    match e
    case SetTrain => Some(s.(training := true))
    case SetEval => Some(s.(training := false))
    case GradOff => if s.gradEnabled then Some(s.(gradEnabled := false)) else None
    case GradOn => if !s.gradEnabled then Some(s.(gradEnabled := true)) else None
    case ChangeMode(m) =>
      if !s.training && !s.gradEnabled && m >= -1 && s.phase == Idle then Some(s.(mode := m)) else None
    case ConceptForward(c) =>
      if (s.mode == c || (s.mode == -1 && s.hooked)) && (s.phase == Idle || s.phase == LossReady) then
        Some(if s.gradEnabled then s.(phase := LossReady) else s)
      else None
    case Capture(_, _) => if s.hooked then Some(s) else None
    case UpdateRotation => if !s.training && !s.gradEnabled && s.phase == Idle then Some(s) else None
    case RegisterHook(_, _) => if !s.hooked then Some(s.(hooked := true)) else None
    case RemoveHook => if s.hooked then Some(s.(hooked := false)) else None
    case Forward =>
      if s.training && s.gradEnabled && s.mode == -1 && !s.hooked && s.phase == Idle then
        Some(s.(phase := LossReady))
      else None
    case ZeroGrad =>
      if s.training && s.gradEnabled && s.phase == LossReady then Some(s.(phase := Zeroed)) else None
    case Backward =>
      if s.training && s.gradEnabled && s.phase == Zeroed then Some(s.(phase := Graded)) else None
    case Step =>
      if s.training && s.gradEnabled && s.mode == -1 && s.phase == Graded then Some(s.(phase := Idle)) else None
  }

  /** The state after the trace `t`, or `None` if some event of it is not allowed. */
  function Replay(s: ModelState, t: seq<Event>): Option<ModelState>
    decreases |t|
  {
    if |t| == 0 then Some(s)
    else
      match Apply(s, t[0])
      case None => None
      case Some(s') => Replay(s', t[1..])
  }

  /** Replaying two traces one after the other is replaying their concatenation. */
  lemma {:induction false} ReplayConcat(s: ModelState, a: seq<Event>, b: seq<Event>)
    ensures Replay(s, a + b) == match Replay(s, a) case None => None case Some(s') => Replay(s', b)
    decreases |a|
  {
    if |a| > 0 {
      assert (a + b)[0] == a[0];
      assert (a + b)[1..] == a[1..] + b;
      match Apply(s, a[0])
      case None =>
      case Some(s') => ReplayConcat(s', a[1..], b);
    } else {
      assert a + b == b;
    }
  }

  /** Replaying a trace that starts with `e` applies `e` first. */
  lemma ReplayCons(s: ModelState, e: Event, t: seq<Event>)
    ensures Replay(s, [e] + t) == match Apply(s, e) case None => None case Some(s') => Replay(s', t)
  {
    assert ([e] + t)[0] == e;
    assert ([e] + t)[1..] == t;
  }

  /** The events of a gradient update on the main task: forward pass, `zero_grad`, `backward`, step. */
  predicate UpdateEvent(e: Event)
  {
    e.Forward? || e.ZeroGrad? || e.Backward? || e.Step?
  }

  /** One ordinary update: forward, `zero_grad`, `backward`, `step`. */
  function OrdinaryStep(): seq<Event>
  {
    [Forward, ZeroGrad, Backward, Step]
  }

  /** An ordinary update is legal from `Ready` and returns to it. */
  lemma OrdinaryStepReady()
    ensures Replay(Ready, OrdinaryStep()) == Some(Ready)
  {
    var t := OrdinaryStep();
    assert t[1..] == [ZeroGrad, Backward, Step];
    assert t[1..][1..] == [Backward, Step];
    assert t[1..][1..][1..] == [Step];
  }

  /** How many times `e` occurs in `t`. */
  function Count(t: seq<Event>, e: Event): nat
  {
    if |t| == 0 then 0 else Count(t[..|t| - 1], e) + (if t[|t| - 1] == e then 1 else 0)
  }

  lemma {:induction false} CountConcat(a: seq<Event>, b: seq<Event>, e: Event)
    ensures Count(a + b, e) == Count(a, e) + Count(b, e)
    decreases |b|
  {
    if |b| == 0 {
      assert a + b == a;
    } else {
      assert (a + b)[..|a + b| - 1] == a + b[..|b| - 1];
      CountConcat(a, b[..|b| - 1], e);
    }
  }

  lemma {:induction false} CountAbsent(t: seq<Event>, e: Event)
    requires e !in t
    ensures Count(t, e) == 0
  {
    if |t| > 0 {
      assert t == t[..|t| - 1] + [t[|t| - 1]];
      CountAbsent(t[..|t| - 1], e);
    }
  }

  lemma CountOne(x: Event, e: Event)
    ensures Count([x], e) == if x == e then 1 else 0
  {
    assert [x][..0] == [];
  }

  /** Appending one event adds one to its own count only. */
  lemma CountSnoc(t: seq<Event>, x: Event, e: Event)
    ensures Count(t + [x], e) == Count(t, e) + (if x == e then 1 else 0)
  {
    assert (t + [x])[..|t|] == t;
  }

  /** The number of optimizer steps in a trace. */
  function Steps(t: seq<Event>): nat
  {
    Count(t, Step)
  }

  /** An ordinary update holds one forward pass, `zero_grad`, `backward` and step each, and nothing else. */
  lemma OrdinaryStepCounts(e: Event)
    ensures Count(OrdinaryStep(), e) == if UpdateEvent(e) then 1 else 0
  {
    var a := [Forward];
    var b := a + [ZeroGrad];
    var c := b + [Backward];
    assert OrdinaryStep() == c + [Step];
    CountOne(Forward, e);
    CountSnoc(a, ZeroGrad, e);
    CountSnoc(b, Backward, e);
    CountSnoc(c, Step, e);
  }
}
