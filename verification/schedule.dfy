/**
 Epoch-level bookkeeping of `main` in train_places.py: the learning-rate
 decay exponent of `adjust_learning_rate`, and the best-precision tracking
 that decides when the "best" checkpoint copy is written.

 Only the exponent `epoch // 30` of the learning rate `lr * 0.1 ** exponent`
 is modelled, not the floating-point rate itself.
 */
module Schedule {

  /** Epochs per tenfold learning-rate decay. */
  const DecayPeriod: nat := 30

  /** Number of epochs `main` trains for, whatever `--epochs` says. */
  const EpochsRun: nat := 2

  /**
   The exponent `epoch // 30` (Python floor division; Dafny's `/` agrees with
   it for a positive divisor, negative epochs included).
   */
  function DecayExponent(epoch: int): (e: int)
    ensures DecayPeriod * e <= epoch < DecayPeriod * e + DecayPeriod
  {
    epoch / DecayPeriod
  }

  /** The exponent never decreases as training advances. */
  lemma DecayMonotone(a: int, b: int)
    requires a <= b
    ensures DecayExponent(a) <= DecayExponent(b)
  {
  }

  /** Every epoch of the block `[30 b, 30 b + 29]` uses exponent `b`. */
  lemma DecayConstantInBlock(b: int, r: int)
    requires 0 <= r < DecayPeriod
    ensures DecayExponent(DecayPeriod * b + r) == b
  {
  }

  /** The outcome of `is_best = prec1 > best_prec1; best_prec1 = max(prec1, best_prec1)`. */
  datatype BestUpdate = BestUpdate(isBest: bool, best: real)

  function TrackBest(best: real, prec: real): (u: BestUpdate)
    ensures u.isBest <==> prec > best
    ensures u.best >= best && u.best >= prec
    ensures u.best == best || u.best == prec
    ensures u.isBest ==> u.best == prec
    ensures !u.isBest ==> u.best == best
  {
    BestUpdate(prec > best, if prec > best then prec else best)
  }

  /** The record `main` saves after one epoch. */
  datatype EpochRecord = EpochRecord(
    epoch: int,        // the epoch just trained
    exponent: int,     // learning-rate decay exponent used for it
    precision: real,   // top-1 precision `validate` returned
    isBest: bool,      // whether the "best" copy of the checkpoint is written
    best: real,        // `best_prec1` stored in the checkpoint
    savedEpoch: int)   // `epoch + 1`, the epoch field of the checkpoint

  /**
   The epochs `start .. start + count - 1` with the running best starting at
   `best`; `validate` stands for the evaluation pass, whose result is the
   only input the bookkeeping needs.
   */
  function Epochs(start: int, count: nat, best: real, validate: int -> real): (rs: seq<EpochRecord>)
    ensures |rs| == count
    decreases count
  {
    if count == 0 then []
    else
      var prec := validate(start);
      var u := TrackBest(best, prec);
      [EpochRecord(start, DecayExponent(start), prec, u.isBest, u.best, start + 1)]
        + Epochs(start + 1, count - 1, u.best, validate)
  }

  /** The training part of `main`: two epochs from `start`, best precision starting at 0. */
  function Main(start: int, validate: int -> real): (rs: seq<EpochRecord>)
    ensures |rs| == EpochsRun
    ensures rs[0].epoch == start && rs[1].epoch == start + 1
  {
    Epochs(start, EpochsRun, 0.0, validate)
  }

  /** The largest of `best` and the precisions of the first `n` records. */
  function BestOf(best: real, rs: seq<EpochRecord>, n: nat): real
    requires n <= |rs|
  {
    if n == 0 then best
    else
      var b := BestOf(best, rs, n - 1);
      if rs[n - 1].precision > b then rs[n - 1].precision else b
  }

  /**
   Over any run of epochs: the records cover consecutive epochs with their
   decay exponents; the stored best is the maximum of the starting best and
   every precision so far; and the "best" copy is written exactly when the
   epoch's precision strictly exceeds the starting best and every earlier
   epoch's precision.
   */
  lemma {:induction false} EpochsTrackBest(start: int, count: nat, best: real, validate: int -> real, i: nat)
    requires i < count
    ensures var rs := Epochs(start, count, best, validate);
      && rs[i].epoch == start + i
      && rs[i].savedEpoch == start + i + 1
      && rs[i].exponent == DecayExponent(start + i)
      && rs[i].precision == validate(start + i)
      && rs[i].best == BestOf(best, rs, i + 1)
      && (rs[i].isBest <==> rs[i].precision > BestOf(best, rs, i))
    decreases count
  {
    var rs := Epochs(start, count, best, validate);
    var u := TrackBest(best, validate(start));
    var tail := Epochs(start + 1, count - 1, u.best, validate);
    assert rs == [rs[0]] + tail;
    assert BestOf(best, rs, 1) == u.best;
    if i > 0 {
      EpochsTrackBest(start + 1, count - 1, u.best, validate, i - 1);
      BestOfShift(best, rs, i);
      BestOfShift(best, rs, i + 1);
    }
  }

  /** Folding the records after the first, from the first's best, is folding them all. */
  lemma {:induction false} BestOfShift(best: real, rs: seq<EpochRecord>, n: nat)
    requires 1 <= n <= |rs|
    requires rs[0].best == BestOf(best, rs, 1)
    ensures BestOf(best, rs, n) == BestOf(rs[0].best, rs[1..], n - 1)
  {
    if n > 1 {
      BestOfShift(best, rs, n - 1);
      assert rs[1..][n - 2] == rs[n - 1];
    }
  }

  /** `BestOf` is at least every precision it folds and at least the starting best. */
  lemma {:induction false} BestOfBounds(best: real, rs: seq<EpochRecord>, n: nat)
    requires n <= |rs|
    ensures BestOf(best, rs, n) >= best
    ensures forall j :: 0 <= j < n ==> BestOf(best, rs, n) >= rs[j].precision
  {
    if n > 0 {
      BestOfBounds(best, rs, n - 1);
    }
  }

  /**
   In the two epochs `main` runs: the stored best never decreases, and the
   second epoch writes the "best" copy exactly when its precision beats both
   0 and the first epoch's precision.
   */
  lemma MainBest(start: int, validate: int -> real)
    ensures var rs := Main(start, validate);
      && rs[0].best <= rs[1].best
      && rs[0].exponent <= rs[1].exponent
      && (rs[0].isBest <==> validate(start) > 0.0)
      && (rs[1].isBest <==> validate(start + 1) > 0.0 && validate(start + 1) > validate(start))
  {
    var rs := Main(start, validate);
    EpochsTrackBest(start, EpochsRun, 0.0, validate, 0);
    EpochsTrackBest(start, EpochsRun, 0.0, validate, 1);
    BestOfBounds(0.0, rs, 1);
    DecayMonotone(start, start + 1);
  }
}
