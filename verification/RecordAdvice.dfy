/**
 * The train/holdout split of a proposal, and the advice given when it leaves too few training rows.
 */
module RecordAdvice {
  import opened Outcomes
  import opened Rounding

  /** Fewer training rows than this make every candidate a single-point fit. */
  const MIN_TRAINING_ROWS: nat := 2

  const SEARCH_LIMIT: nat := 100000

  function HoldoutRows(n: nat, holdout: real): int {
    var r := RoundHalfEven(n as real * holdout);
    if r < 2 then 2 else r
  }

  function TrainRows(n: nat, holdout: real): int {
    n - HoldoutRows(n, holdout)
  }

  predicate Trainable(n: nat, holdout: real) {
    TrainRows(n, holdout) >= MIN_TRAINING_ROWS
  }

  // ---------------------------------------------------------------- rounding

  /** Raising a number by less than one raises its rounding by at most one, ties to even included. */
  lemma RoundStep(x: real, y: real)
    requires y < x + 1.0
    ensures RoundHalfEven(y) <= RoundHalfEven(x) + 1
  {
  }

  lemma RoundBelow(x: real, k: int)
    requires x < k as real
    ensures RoundHalfEven(x) <= k
  {
  }

  /** One more record never costs a training row. */
  lemma TrainRowsNeverFall(n: nat, holdout: real)
    requires 0.0 < holdout < 1.0
    ensures TrainRows(n, holdout) <= TrainRows(n + 1, holdout)
  {
    var x, y := n as real * holdout, (n + 1) as real * holdout;
    assert y == x + holdout;
    RoundStep(x, y);
  }

  lemma {:induction false} TrainRowsMonotone(m: nat, n: nat, holdout: real)
    requires 0.0 < holdout < 1.0 && m <= n
    ensures TrainRows(m, holdout) <= TrainRows(n, holdout)
    decreases n
  {
    if m < n {
      TrainRowsMonotone(m, n - 1, holdout);
      TrainRowsNeverFall(n - 1, holdout);
    }
  }

  // ---------------------------------------------------------------- the advised count

  /** The share of a hundred thousand records that leaves exactly two training rows. */
  const LARGEST_TRAINABLE_HOLDOUT: real := 0.999985

  /** At the search limit, two training rows are left up to a holdout of 0.999985: the half record it leaves over goes
      to the even count below. */
  lemma TrainableAtTheLimit(holdout: real)
    requires 0.0 < holdout < 1.0
    ensures Trainable(SEARCH_LIMIT, holdout) <==> holdout <= LARGEST_TRAINABLE_HOLDOUT
  {
    var x := SEARCH_LIMIT as real * holdout;
    assert x <= 99998.5 <==> holdout <= LARGEST_TRAINABLE_HOLDOUT;
    assert x <= 99998.5 <==> RoundHalfEven(x) <= 99998;
  }

  /** Some count up to the limit is trainable exactly when the limit itself is. */
  lemma SearchSucceeds(holdout: real)
    requires 0.0 < holdout < 1.0
    ensures (forall m :: 0 <= m <= SEARCH_LIMIT ==> !Trainable(m, holdout)) <==> holdout > LARGEST_TRAINABLE_HOLDOUT
  {
    TrainableAtTheLimit(holdout);
    forall m | 0 <= m <= SEARCH_LIMIT && Trainable(m, holdout) ensures Trainable(SEARCH_LIMIT, holdout) {
      TrainRowsMonotone(m, SEARCH_LIMIT, holdout);
    }
  }

  /** The least record count whose split is trainable, or zero when none up to the search limit is. */
  method RecordsForATrainableSplit(holdout: real) returns (n: nat)
    requires 0.0 < holdout < 1.0
    ensures n == 0 <==> forall m :: 0 <= m <= SEARCH_LIMIT ==> !Trainable(m, holdout)
    ensures n == 0 <==> holdout > LARGEST_TRAINABLE_HOLDOUT
    ensures n != 0 ==> n <= SEARCH_LIMIT && forall m: nat :: Trainable(m, holdout) <==> m >= n
  {
    SearchSucceeds(holdout);
    n := MIN_TRAINING_ROWS + 2;
    while TrainRows(n, holdout) < MIN_TRAINING_ROWS
      invariant 4 <= n <= SEARCH_LIMIT
      invariant forall m :: 0 <= m < n ==> !Trainable(m, holdout)
      decreases SEARCH_LIMIT - n
    {
      n := n + 1;
      if n > SEARCH_LIMIT { return 0; }
    }
    assert Trainable(n, holdout);
    forall m: nat | m >= n ensures Trainable(m, holdout) {
      TrainRowsMonotone(n, m, holdout);
    }
  }

  // ---------------------------------------------------------------- the split check

  datatype Remedies = Remedies(provideAtLeast: Option<nat>, lowerHoldout: bool)

  datatype Split =
    | BadHoldout
    | TooFewRecords
    | NoTrainingRows
    | SingleRow(remedies: Remedies)
    | Accepted(train: nat, val: nat)

  ghost predicate LowerHoldoutHelps(rows: nat, holdout: real) {
    exists h :: 0.0 < h < holdout && Trainable(rows, h)
  }

  /** With four records or more a small enough holdout always leaves two training rows. */
  lemma SmallHoldoutTrains(rows: nat, holdout: real)
    requires rows >= 4 && 0.0 < holdout < 1.0
    ensures LowerHoldoutHelps(rows, holdout)
  {
    var h := holdout / (4.0 * rows as real);
    QuarterShare(rows as real, holdout, h);
    assert Trainable(rows, h);
  }

  lemma QuarterShare(r: real, holdout: real, q: real)
    requires r >= 1.0 && 0.0 < holdout < 1.0 && q == holdout / (4.0 * r)
    ensures 0.0 < q < holdout && r * q < 0.5
  {
    assert q * (4.0 * r) == holdout;
    assert q * (4.0 * r) == 4.0 * (r * q);
    assert q > 0.0;
    assert r * q >= q by { assert (r - 1.0) * q >= 0.0; }
  }

  /** At three records and a trainable-by-one split, twenty records always suffice: the search finds an answer. */
  lemma ThreeRecordsHaveAnAnswer(holdout: real)
    requires 0.0 < holdout < 1.0 && RoundHalfEven(3.0 * holdout) <= 2
    ensures Trainable(20, holdout)
  {
    assert 3.0 * holdout <= 2.5;
    RoundBelow(20.0 * holdout, 18);
  }

  /** The split a proposal makes, and the remedies it names when the split is refused.

      The advice is takeable: an advised count is trainable, and so is every larger one; and "lower holdout" is
      offered exactly when some lower holdout would succeed. */
  method CheckSplit(rows: nat, holdout: real) returns (s: Split)
    ensures s.BadHoldout? <==> !(0.0 < holdout < 1.0)
    ensures 0.0 < holdout < 1.0 ==> (s.TooFewRecords? <==> rows < 3)
    ensures 0.0 < holdout < 1.0 && rows >= 3 ==> (s.NoTrainingRows? <==> TrainRows(rows, holdout) <= 0)
    ensures 0.0 < holdout < 1.0 && rows >= 3 ==> (s.Accepted? <==> Trainable(rows, holdout))
    ensures s.Accepted? ==> s.train == TrainRows(rows, holdout) && s.train + s.val == rows
    ensures s.SingleRow? && s.remedies.provideAtLeast.Some? ==>
              s.remedies.provideAtLeast.value > rows &&
              forall m: nat :: Trainable(m, holdout) <==> m >= s.remedies.provideAtLeast.value
    ensures s.SingleRow? && s.remedies.provideAtLeast.None? ==>
              s.remedies.lowerHoldout && forall m :: 0 <= m <= SEARCH_LIMIT ==> !Trainable(m, holdout)
    ensures s.SingleRow? ==> (s.remedies.provideAtLeast.None? <==> holdout > LARGEST_TRAINABLE_HOLDOUT)
    ensures s.SingleRow? ==> (s.remedies.lowerHoldout <==> LowerHoldoutHelps(rows, holdout))
  {
    if !(0.0 < holdout < 1.0) { return BadHoldout; }
    if rows < 3 { return TooFewRecords; }
    var val := HoldoutRows(rows, holdout);
    var train := rows - val;
    if train <= 0 { return NoTrainingRows; }
    if train < MIN_TRAINING_ROWS {
      var enough := RecordsForATrainableSplit(holdout);
      var holdoutBinds := RoundHalfEven(rows as real * holdout) > 2;
      var provide := if enough != 0 then Some(enough) else None;
      // The program falls back to "lower holdout" when it has named no remedy; that case cannot arise.
      if !holdoutBinds {
        assert rows == 3;
        ThreeRecordsHaveAnAnswer(holdout);
      }
      assert provide.Some? || holdoutBinds;
      if holdoutBinds {
        SmallHoldoutTrains(rows, holdout);
      } else {
        assert !LowerHoldoutHelps(rows, holdout);
      }
      return SingleRow(Remedies(provide, holdoutBinds));
    }
    s := Accepted(train, val);
  }
}
