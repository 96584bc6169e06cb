/**
 * Minimum-cost blending: the linearised grade window, the minimum-parcel gates, and the check
 * of the returned blend.
 */
module Blending {
  import opened Numbers
  import opened Outcomes
  import opened Sums
  import opened Vectors
  import opened MixedInteger

  /** The blend to be made: one row of grades per source, one window per element. */
  datatype Recipe = Recipe(grades: seq<seq<real>>, lo: seq<real>, hi: seq<real>, avail: seq<real>, demand: real)

  function Sources(r: Recipe): nat { |r.grades| }
  function Elements(r: Recipe): nat { |r.lo| }

  datatype BlendError =
    | EmptyGrades | WindowShape | ReversedWindow | AvailShape | NegativeAvail | BadDemand | CostShape | BadParcel
    | NoBlend | WrongTotal | OutsideWindow

  /** The first geometry check that fails, if any. */
  function GeometryError(r: Recipe): Option<BlendError> {
    if r.grades == [] || r.grades[0] == []
      || (exists s :: 0 <= s < |r.grades| && |r.grades[s]| != |r.grades[0]|) then Some(EmptyGrades)
    else if |r.lo| != |r.grades[0]| || |r.hi| != |r.grades[0]| then Some(WindowShape)
    else if exists e :: 0 <= e < |r.lo| && r.lo[e] > r.hi[e] then Some(ReversedWindow)
    else if |r.avail| != |r.grades| then Some(AvailShape)
    else if exists s :: 0 <= s < |r.avail| && r.avail[s] < 0.0 then Some(NegativeAvail)
    else if r.demand <= 0.0 then Some(BadDemand)
    else None
  }

  predicate WellFormed(r: Recipe) {
    && |r.hi| == |r.lo| && |r.avail| == |r.grades| && r.demand > 0.0
    && forall s :: 0 <= s < |r.grades| ==> |r.grades[s]| == |r.lo|
  }

  lemma ValidGeometryIsWellFormed(r: Recipe)
    requires GeometryError(r).None?
    ensures WellFormed(r)
  {
  }

  function Column(r: Recipe, e: nat): (c: seq<real>)
    requires WellFormed(r) && e < Elements(r)
    ensures |c| == Sources(r) && forall s :: 0 <= s < |c| ==> c[s] == r.grades[s][e]
  {
    seq(|r.grades|, s requires 0 <= s < |r.grades| => r.grades[s][e])
  }

  function Ones(n: nat): (o: seq<real>)
    ensures |o| == n && forall i :: 0 <= i < n ==> o[i] == 1.0
  {
    seq(n, i => 1.0)
  }

  function Tonnage(w: seq<real>): real {
    Dot(Ones(|w|), w)
  }

  /** The blended grade of element `e`: the mass-weighted average over the sources drawn from. */
  function BlendedGrade(r: Recipe, w: seq<real>, e: nat): real
    requires WellFormed(r) && e < Elements(r) && Tonnage(w) != 0.0
  {
    Dot(Column(r, e), w) / Tonnage(w)
  }

  /** A physical blend: it totals the demand, draws no more than is there, and every blended grade is in its window. */
  ghost predicate IsBlend(r: Recipe, w: seq<real>)
    requires WellFormed(r)
  {
    && |w| == Sources(r) && Tonnage(w) == r.demand
    && (forall s :: 0 <= s < |w| ==> 0.0 <= w[s] <= r.avail[s])
    && (forall e :: 0 <= e < Elements(r) ==> r.lo[e] <= BlendedGrade(r, w, e) <= r.hi[e])
  }

  // ---------------------------------------------------------------- the linear rows

  /** The grades of element `e` measured from a window edge. */
  function Offset(c: seq<real>, edge: real): (o: seq<real>)
    ensures |o| == |c| && forall s :: 0 <= s < |c| ==> o[s] == c[s] - edge
  {
    seq(|c|, s requires 0 <= s < |c| => c[s] - edge)
  }

  ghost predicate IsSpecRows(r: Recipe, rows: seq<seq<real>>, rhs: seq<real>)
    requires WellFormed(r)
  {
    var m := Elements(r);
    && |rows| == |rhs| == 2 * m + 2
    && (forall e :: 0 <= e < m ==> WindowRows(r, rows, rhs, e))
    && rows[2 * m] == Ones(Sources(r)) && rhs[2 * m] == r.demand
    && rows[2 * m + 1] == Negated(Ones(Sources(r))) && rhs[2 * m + 1] == -r.demand
  }

  ghost predicate WindowRows(r: Recipe, rows: seq<seq<real>>, rhs: seq<real>, e: int)
    requires WellFormed(r) && 0 <= e < Elements(r) && |rows| == |rhs| && |rows| > 2 * e + 1
  {
    && rows[2 * e] == Negated(Offset(Column(r, e), r.lo[e])) && rhs[2 * e] == 0.0
    && rows[2 * e + 1] == Offset(Column(r, e), r.hi[e]) && rhs[2 * e + 1] == 0.0
  }

  lemma DotFlat(v: real, w: seq<real>)
    ensures Dot(Constant(|w|, v), w) == v * Tonnage(w)
  {
    var flat, ones := Constant(|w|, v), Ones(|w|);
    SumScale(|w|, v, i => if 0 <= i < |ones| && i < |w| then ones[i] * w[i] else 0.0,
      i => if 0 <= i < |flat| && i < |w| then flat[i] * w[i] else 0.0);
  }

  lemma DotOffset(c: seq<real>, edge: real, w: seq<real>)
    requires |c| == |w|
    ensures Dot(Offset(c, edge), w) == Dot(c, w) - edge * Tonnage(w)
  {
    DotSub(c, Constant(|w|, edge), Offset(c, edge), w);
    DotFlat(edge, w);
  }

  /** A ratio lies in a window exactly when its numerator, measured from each edge, has the right sign. */
  lemma WindowLinearises(total: real, num: real, lo: real, hi: real)
    requires total > 0.0
    ensures lo <= num / total <= hi <==> num - lo * total >= 0.0 && num - hi * total <= 0.0
  {
    var q := num / total;
    assert q * total == num;
    SignOfProduct(q - lo, total);
    SignOfProduct(hi - q, total);
    assert (q - lo) * total == num - lo * total;
    assert (hi - q) * total == hi * total - num;
  }

  lemma SignOfProduct(x: real, total: real)
    requires total > 0.0
    ensures x >= 0.0 <==> x * total >= 0.0
  {
  }

  /** The linear rows and bounds hold of exactly the physical blends. */
  lemma SpecRowsAreExact(r: Recipe, rows: seq<seq<real>>, rhs: seq<real>, w: seq<real>)
    requires WellFormed(r) && IsSpecRows(r, rows, rhs) && |w| == Sources(r)
    ensures Satisfies(rows, rhs, w) && (forall s :: 0 <= s < |w| ==> 0.0 <= w[s] <= r.avail[s]) <==> IsBlend(r, w)
  {
    var m := Elements(r);
    DotNegated(Ones(|w|), w);
    forall e | 0 <= e < m ensures WindowMeaning(r, rows, rhs, w, e) {
      WindowRowsMeaning(r, rows, rhs, w, e);
    }
    if Satisfies(rows, rhs, w) {
      assert Dot(rows[2 * m], w) <= rhs[2 * m] && Dot(rows[2 * m + 1], w) <= rhs[2 * m + 1];
      forall e | 0 <= e < m ensures r.lo[e] <= BlendedGrade(r, w, e) <= r.hi[e] {
        assert WindowMeaning(r, rows, rhs, w, e);
        assert Dot(rows[2 * e], w) <= rhs[2 * e] && Dot(rows[2 * e + 1], w) <= rhs[2 * e + 1];
      }
    }
    if IsBlend(r, w) {
      forall i | 0 <= i < |rows| ensures Dot(rows[i], w) <= rhs[i] {
        if i < 2 * m {
          var e := i / 2;
          assert WindowMeaning(r, rows, rhs, w, e);
          assert i == 2 * e || i == 2 * e + 1;
        }
      }
    }
  }

  ghost predicate WindowMeaning(r: Recipe, rows: seq<seq<real>>, rhs: seq<real>, w: seq<real>, e: int)
    requires WellFormed(r) && IsSpecRows(r, rows, rhs) && 0 <= e < Elements(r)
  {
    Tonnage(w) == r.demand ==>
      (Dot(rows[2 * e], w) <= rhs[2 * e] && Dot(rows[2 * e + 1], w) <= rhs[2 * e + 1] <==>
       r.lo[e] <= BlendedGrade(r, w, e) <= r.hi[e])
  }

  lemma WindowRowsMeaning(r: Recipe, rows: seq<seq<real>>, rhs: seq<real>, w: seq<real>, e: int)
    requires WellFormed(r) && IsSpecRows(r, rows, rhs) && |w| == Sources(r) && 0 <= e < Elements(r)
    ensures WindowMeaning(r, rows, rhs, w, e)
  {
    var c := Column(r, e);
    assert WindowRows(r, rows, rhs, e);
    DotNegated(Offset(c, r.lo[e]), w);
    DotOffset(c, r.lo[e], w);
    DotOffset(c, r.hi[e], w);
    if Tonnage(w) == r.demand {
      EdgesMeanWindow(
        Tonnage(w), Dot(c, w), r.lo[e], r.hi[e], Dot(rows[2 * e], w), Dot(rows[2 * e + 1], w));
    }
  }

  lemma EdgesMeanWindow(total: real, num: real, lo: real, hi: real, below: real, above: real)
    requires total > 0.0 && below == -(num - lo * total) && above == num - hi * total
    ensures below <= 0.0 && above <= 0.0 <==> lo <= num / total <= hi
  {
    WindowLinearises(total, num, lo, hi);
  }

  // ---------------------------------------------------------------- minimum-parcel gates

  /** Source `s`'s two gate rows over [w, z]: w_s - avail_s z_s <= 0 and min_parcel z_s - w_s <= 0. */
  function UpperGate(r: Recipe, s: nat): seq<real>
    requires WellFormed(r) && s < Sources(r)
  {
    UnitRow(Sources(r), s, 1.0) + UnitRow(Sources(r), s, -r.avail[s])
  }

  function LowerGate(r: Recipe, parcel: real, s: nat): seq<real>
    requires WellFormed(r) && s < Sources(r)
  {
    UnitRow(Sources(r), s, -1.0) + UnitRow(Sources(r), s, parcel)
  }

  ghost predicate GatePair(r: Recipe, parcel: real, rows: seq<seq<real>>, rhs: seq<real>, s: int)
    requires WellFormed(r) && 0 <= s < Sources(r) && |rows| == |rhs| == 2 * Sources(r)
  {
    && rows[2 * s] == UpperGate(r, s) && rhs[2 * s] == 0.0
    && rows[2 * s + 1] == LowerGate(r, parcel, s) && rhs[2 * s + 1] == 0.0
  }

  ghost predicate IsGateRows(r: Recipe, parcel: real, rows: seq<seq<real>>, rhs: seq<real>)
    requires WellFormed(r)
  {
    |rows| == |rhs| == 2 * Sources(r) && forall s :: 0 <= s < Sources(r) ==> GatePair(r, parcel, rows, rhs, s)
  }

  /** A draw the parcel floor allows: none at all, or at least a parcel. */
  predicate ParcelDraw(w: real, parcel: real, avail: real) {
    w == 0.0 || parcel <= w <= avail
  }

  predicate GateHolds(w: real, z: real, parcel: real, avail: real) {
    w <= avail * z && parcel * z <= w
  }

  lemma GatePairMeaning(r: Recipe, parcel: real, rows: seq<seq<real>>, rhs: seq<real>, w: seq<real>, z: seq<real>,
                        s: int)
    requires WellFormed(r) && IsGateRows(r, parcel, rows, rhs) && |w| == |z| == Sources(r) && 0 <= s < Sources(r)
    ensures BothHold(rows, rhs, w + z, s) <==> GateHolds(w[s], z[s], parcel, r.avail[s])
  {
    assert GatePair(r, parcel, rows, rhs, s);
    TwoUnits(Sources(r), s, 1.0, -r.avail[s], w, z);
    TwoUnits(Sources(r), s, -1.0, parcel, w, z);
    GateSigns(w[s], z[s], parcel, r.avail[s]);
  }

  lemma TwoUnits(n: nat, s: int, a: real, b: real, w: seq<real>, z: seq<real>)
    requires |w| == |z| == n && 0 <= s < n
    ensures Dot(UnitRow(n, s, a) + UnitRow(n, s, b), w + z) == a * w[s] + b * z[s]
  {
    DotConcat(UnitRow(n, s, a), UnitRow(n, s, b), w, z);
    DotUnit(n, s, a, w);
    DotUnit(n, s, b, z);
  }

  lemma GateSigns(w: real, z: real, parcel: real, avail: real)
    ensures (1.0 * w + -avail * z <= 0.0 && -1.0 * w + parcel * z <= 0.0) <==> GateHolds(w, z, parcel, avail)
  {
  }

  predicate BothHold(rows: seq<seq<real>>, rhs: seq<real>, x: seq<real>, s: int)
    requires |rows| == |rhs| && 0 <= 2 * s < |rows| - 1
  {
    Dot(rows[2 * s], x) <= rhs[2 * s] && Dot(rows[2 * s + 1], x) <= rhs[2 * s + 1]
  }

  /** Rows that come in pairs hold when every pair does. */
  lemma RowsInPairs(rows: seq<seq<real>>, rhs: seq<real>, x: seq<real>, n: nat)
    requires |rows| == |rhs| == 2 * n
    ensures Satisfies(rows, rhs, x) <==> forall s :: 0 <= s < n ==> BothHold(rows, rhs, x, s)
  {
    if forall s :: 0 <= s < n ==> BothHold(rows, rhs, x, s) {
      forall i | 0 <= i < |rows| ensures Dot(rows[i], x) <= rhs[i] {
        assert BothHold(rows, rhs, x, i / 2);
      }
    }
  }

  lemma GateRowsMeaning(r: Recipe, parcel: real, rows: seq<seq<real>>, rhs: seq<real>, w: seq<real>, z: seq<real>)
    requires WellFormed(r) && IsGateRows(r, parcel, rows, rhs) && |w| == |z| == Sources(r)
    ensures Satisfies(rows, rhs, w + z) <==> forall s :: 0 <= s < |w| ==> GateHolds(w[s], z[s], parcel, r.avail[s])
  {
    RowsInPairs(rows, rhs, w + z, |w|);
    forall s | 0 <= s < |w|
      ensures BothHold(rows, rhs, w + z, s) <==> GateHolds(w[s], z[s], parcel, r.avail[s])
    {
      GatePairMeaning(r, parcel, rows, rhs, w, z, s);
    }
  }

  /** The gate values for a blend: open exactly where something is drawn. */
  function OpenGates(w: seq<real>): (z: seq<real>)
    ensures |z| == |w| && Binary(z) && forall s :: 0 <= s < |w| ==> z[s] == if w[s] == 0.0 then 0.0 else 1.0
  {
    seq(|w|, s requires 0 <= s < |w| => if w[s] == 0.0 then 0.0 else 1.0)
  }

  /** Some 0/1 gate vector satisfies the gate rows exactly when every draw is zero or between a parcel and the stock. */
  lemma GatesAreExact(r: Recipe, parcel: real, rows: seq<seq<real>>, rhs: seq<real>, w: seq<real>)
    requires WellFormed(r) && IsGateRows(r, parcel, rows, rhs) && |w| == Sources(r)
    ensures (exists z :: |z| == |w| && Binary(z) && Satisfies(rows, rhs, w + z)) <==>
      forall s :: 0 <= s < |w| ==> ParcelDraw(w[s], parcel, r.avail[s])
  {
    if z :| |z| == |w| && Binary(z) && Satisfies(rows, rhs, w + z) {
      GateRowsMeaning(r, parcel, rows, rhs, w, z);
      forall s | 0 <= s < |w| ensures ParcelDraw(w[s], parcel, r.avail[s]) {
        assert GateHolds(w[s], z[s], parcel, r.avail[s]) && (z[s] == 0.0 || z[s] == 1.0);
      }
    }
    if forall s :: 0 <= s < |w| ==> ParcelDraw(w[s], parcel, r.avail[s]) {
      var z := OpenGates(w);
      forall s | 0 <= s < |w| ensures GateHolds(w[s], z[s], parcel, r.avail[s]) {
        assert ParcelDraw(w[s], parcel, r.avail[s]);
      }
      GateRowsMeaning(r, parcel, rows, rhs, w, z);
    }
  }

  /** The gates carry no cost. */
  lemma GatesAreFree(costs: seq<real>, w: seq<real>, z: seq<real>)
    requires |costs| == |w|
    ensures Dot(costs + Zeros(|z|), w + z) == Dot(costs, w)
  {
    DotConcat(costs, Zeros(|z|), w, z);
    DotZero(Zeros(|z|), z);
  }

  /** Rows padded with zeros in the gate columns read only the draws. */
  lemma PaddedRowsMeaning(rows: seq<seq<real>>, padded: seq<seq<real>>, rhs: seq<real>, w: seq<real>, z: seq<real>)
    requires |padded| == |rows| == |rhs|
    requires forall i :: 0 <= i < |rows| ==> |rows[i]| == |w| && padded[i] == rows[i] + Zeros(|z|)
    ensures Satisfies(padded, rhs, w + z) <==> Satisfies(rows, rhs, w)
  {
    forall i | 0 <= i < |rows| ensures Dot(padded[i], w + z) == Dot(rows[i], w) {
      GatesAreFree(rows[i], w, z);
    }
  }

  // ---------------------------------------------------------------- building the rows

  method SpecConstraints(r: Recipe) returns (rows: seq<seq<real>>, rhs: seq<real>, bounds: seq<Bound>)
    requires WellFormed(r)
    ensures IsSpecRows(r, rows, rhs)
    ensures forall i :: 0 <= i < |rows| ==> |rows[i]| == Sources(r)
    ensures |bounds| == Sources(r) && forall s :: 0 <= s < |bounds| ==> bounds[s] == Bound(Some(0.0), Some(r.avail[s]))
  {
    rows, rhs := [], [];
    for e := 0 to Elements(r)
      invariant |rows| == |rhs| == 2 * e
      invariant forall k :: 0 <= k < e ==> WindowRows(r, rows, rhs, k)
      invariant forall i :: 0 <= i < |rows| ==> |rows[i]| == Sources(r)
    {
      var c := Column(r, e);
      ghost var before, before' := rows, rhs;
      rows := rows + [Negated(Offset(c, r.lo[e])), Offset(c, r.hi[e])];
      rhs := rhs + [0.0, 0.0];
      forall k | 0 <= k < e ensures WindowRows(r, rows, rhs, k) { assert WindowRows(r, before, before', k); }
    }
    ghost var before, before' := rows, rhs;
    rows := rows + [Ones(Sources(r)), Negated(Ones(Sources(r)))];
    rhs := rhs + [r.demand, -r.demand];
    forall e | 0 <= e < Elements(r) ensures WindowRows(r, rows, rhs, e) { assert WindowRows(r, before, before', e); }
    bounds := seq(Sources(r), s requires 0 <= s < |r.avail| => Bound(Some(0.0), Some(r.avail[s])));
  }

  /** Extend the rows by one gate per source: pad, then fill each source's two gate rows in place. */
  method MinParcelGates(r: Recipe, parcel: real, rows: seq<seq<real>>)
    returns (padded: seq<seq<real>>, gates: seq<seq<real>>, gateRhs: seq<real>)
    requires WellFormed(r)
    ensures |padded| == |rows| && forall i :: 0 <= i < |rows| ==> padded[i] == rows[i] + Zeros(Sources(r))
    ensures IsGateRows(r, parcel, gates, gateRhs)
  {
    var n := Sources(r);
    padded := seq(|rows|, i requires 0 <= i < |rows| => rows[i] + Zeros(n));
    gates := seq(2 * n, i => Zeros(2 * n));
    gateRhs := Zeros(2 * n);
    for s := 0 to n
      invariant |gates| == 2 * n
      invariant forall i :: 2 * s <= i < 2 * n ==> gates[i] == Zeros(2 * n)
      invariant forall k :: 0 <= k < s ==> GatePair(r, parcel, gates, gateRhs, k)
    {
      var upper := gates[2 * s][s := 1.0];
      upper := upper[n + s := -r.avail[s]];
      var lower := gates[2 * s + 1][s := -1.0];
      lower := lower[n + s := parcel];
      assert upper == UpperGate(r, s) && lower == LowerGate(r, parcel, s);
      ghost var before := gates;
      gates := gates[2 * s := upper][2 * s + 1 := lower];
      forall k | 0 <= k < s
        ensures GatePair(r, parcel, gates, gateRhs, k)
      {
        assert GatePair(r, parcel, before, gateRhs, k);
      }
    }
  }

  // ---------------------------------------------------------------- the check of the returned blend

  /** Relative slack allowed when re-checking a solver's answer. */
  const VERIFY_RTOL: real := 0.000001

  /** Whether a recomputed grade is reported outside its window. A zero total makes the ratio infinite, or, over a zero
      numerator, undefined, and an undefined grade is not reported. */
  predicate Outside(num: real, total: real, lo: real, hi: real) {
    var tol := VERIFY_RTOL * Larger(1.0, Larger(Abs(lo), Abs(hi)));
    if total == 0.0 then num != 0.0 else num / total < lo - tol || num / total > hi + tol
  }

  function VerifyBlend(r: Recipe, w: seq<real>): Option<BlendError>
    requires WellFormed(r)
  {
    var total := Tonnage(w);
    if Abs(total - r.demand) > VERIFY_RTOL * Larger(1.0, r.demand) + VERIFY_RTOL * Abs(r.demand) then Some(WrongTotal)
    else if exists e :: 0 <= e < Elements(r) && Outside(Dot(Column(r, e), w), total, r.lo[e], r.hi[e]) then
      Some(OutsideWindow)
    else None
  }

  /** An exactly feasible blend always passes the check. */
  lemma BlendPassesVerification(r: Recipe, w: seq<real>)
    requires WellFormed(r) && IsBlend(r, w)
    ensures VerifyBlend(r, w).None?
  {
    forall e | 0 <= e < Elements(r) ensures !Outside(Dot(Column(r, e), w), Tonnage(w), r.lo[e], r.hi[e]) {
      assert r.lo[e] <= BlendedGrade(r, w, e) <= r.hi[e];
    }
  }

  // ---------------------------------------------------------------- the cheapest blend

  ghost predicate Draws(r: Recipe, w: seq<real>, parcel: Option<real>)
    requires WellFormed(r)
  {
    IsBlend(r, w) && (parcel.Some? ==> forall s :: 0 <= s < |w| ==> ParcelDraw(w[s], parcel.value, r.avail[s]))
  }

  ghost predicate Cheapest(r: Recipe, costs: seq<real>, parcel: Option<real>, w: seq<real>)
    requires WellFormed(r)
  {
    Draws(r, w, parcel) && forall v :: Draws(r, v, parcel) ==> Dot(costs, w) <= Dot(costs, v)
  }

  function GateIndices(n: nat, m: nat): (g: set<int>)
    ensures forall i :: i in g <==> n <= i < n + m
  {
    if m == 0 then {} else GateIndices(n, m - 1) + {n + m - 1}
  }

  ghost predicate IsPlainProgram(p: Program, r: Recipe, costs: seq<real>)
    requires WellFormed(r)
  {
    && !p.maximise && p.integer == {} && p.objective == costs && |costs| == Sources(r)
    && IsSpecRows(r, p.rows, p.rhs) && |p.bounds| == Sources(r)
    && forall s :: 0 <= s < |p.bounds| ==> p.bounds[s] == Bound(Some(0.0), Some(r.avail[s]))
  }

  lemma PlainProgramIsExact(p: Program, r: Recipe, costs: seq<real>, w: seq<real>)
    requires WellFormed(r) && IsPlainProgram(p, r, costs) && |w| == Sources(r)
    ensures FeasiblePoint(p, w) <==> IsBlend(r, w)
  {
    SpecRowsAreExact(r, p.rows, p.rhs, w);
    if IsBlend(r, w) {
      forall s | 0 <= s < |w| ensures WithinBound(p.bounds[s], w[s]) {}
    }
    if FeasiblePoint(p, w) {
      forall s | 0 <= s < |w| ensures 0.0 <= w[s] <= r.avail[s] { assert WithinBound(p.bounds[s], w[s]); }
    }
  }

  lemma PlainOptimumIsCheapest(p: Program, r: Recipe, costs: seq<real>, w: seq<real>)
    requires WellFormed(r) && IsPlainProgram(p, r, costs) && OptimalPoint(p, w)
    ensures Cheapest(r, costs, None, w)
  {
    PlainProgramIsExact(p, r, costs, w);
    forall v | Draws(r, v, None) ensures Dot(costs, w) <= Dot(costs, v) {
      PlainProgramIsExact(p, r, costs, v);
      assert NoBetter(p, w, v);
    }
  }

  ghost predicate IsGatedProgram(p: Program, r: Recipe, costs: seq<real>, parcel: real)
    requires WellFormed(r)
  {
    var n, k := Sources(r), 2 * Elements(r) + 2;
    && !p.maximise && (forall i :: i in p.integer <==> n <= i < 2 * n)
    && |costs| == n && p.objective == costs + Zeros(n)
    && |p.rows| == |p.rhs| == k + 2 * n
    && PaddedSpecRows(r, p.rows[..k], p.rhs[..k]) && IsGateRows(r, parcel, p.rows[k..], p.rhs[k..])
    && |p.bounds| == 2 * n
    && (forall s :: 0 <= s < n ==> p.bounds[s] == Bound(Some(0.0), Some(r.avail[s])))
    && (forall s :: n <= s < 2 * n ==> p.bounds[s] == Bound(Some(0.0), Some(1.0)))
  }

  ghost predicate PaddedSpecRows(r: Recipe, padded: seq<seq<real>>, rhs: seq<real>)
    requires WellFormed(r)
  {
    exists rows :: |rows| == |padded| && IsSpecRows(r, rows, rhs) &&
      forall i :: 0 <= i < |rows| ==> |rows[i]| == Sources(r) && padded[i] == rows[i] + Zeros(Sources(r))
  }

  ghost predicate InBox(p: Program, v: seq<real>)
    requires |v| == |p.bounds|
  {
    && (forall i :: 0 <= i < |v| ==> WithinBound(p.bounds[i], v[i]))
    && (forall i :: 0 <= i < |v| && i in p.integer ==> v[i] == v[i].Floor as real)
  }

  lemma BoxedPointParts(p: Program, r: Recipe, costs: seq<real>, parcel: real, w: seq<real>, z: seq<real>)
    requires WellFormed(r) && IsGatedProgram(p, r, costs, parcel) && |w| == |z| == Sources(r)
    requires InBox(p, w + z)
    ensures (forall s :: 0 <= s < |w| ==> 0.0 <= w[s] <= r.avail[s]) && Binary(z)
  {
    var n, v := Sources(r), w + z;
    forall s | 0 <= s < n ensures 0.0 <= w[s] <= r.avail[s] { assert v[s] == w[s] && WithinBound(p.bounds[s], v[s]); }
    forall s | 0 <= s < n ensures z[s] == 0.0 || z[s] == 1.0 {
      assert v[n + s] == z[s] && WithinBound(p.bounds[n + s], v[n + s]);
      UnitInteger(z[s]);
    }
  }

  lemma BoxedPointWhole(p: Program, r: Recipe, costs: seq<real>, parcel: real, w: seq<real>, z: seq<real>)
    requires WellFormed(r) && IsGatedProgram(p, r, costs, parcel) && |w| == |z| == Sources(r)
    requires (forall s :: 0 <= s < |w| ==> 0.0 <= w[s] <= r.avail[s]) && Binary(z)
    ensures InBox(p, w + z)
  {
    var n, v := Sources(r), w + z;
    forall i | 0 <= i < |v| ensures WithinBound(p.bounds[i], v[i]) && (i in p.integer ==> v[i] == v[i].Floor as real) {
      if i < n { assert v[i] == w[i]; } else { assert v[i] == z[i - n]; }
    }
  }

  /** A gated point is feasible exactly when its draws are a blend and its gates are 0/1 and satisfied. */
  lemma GatedProgramIsExact(p: Program, r: Recipe, costs: seq<real>, parcel: real, w: seq<real>, z: seq<real>)
    requires WellFormed(r) && IsGatedProgram(p, r, costs, parcel) && |w| == |z| == Sources(r)
    ensures FeasiblePoint(p, w + z) <==>
      IsBlend(r, w) && Binary(z) && Satisfies(p.rows[2 * Elements(r) + 2..], p.rhs[2 * Elements(r) + 2..], w + z)
  {
    var k := 2 * Elements(r) + 2;
    var rows :| |rows| == |p.rows[..k]| && IsSpecRows(r, rows, p.rhs[..k]) &&
      forall i :: 0 <= i < |rows| ==> |rows[i]| == Sources(r) && p.rows[..k][i] == rows[i] + Zeros(Sources(r));
    if InBox(p, w + z) { BoxedPointParts(p, r, costs, parcel, w, z); }
    if (forall s :: 0 <= s < |w| ==> 0.0 <= w[s] <= r.avail[s]) && Binary(z) {
      BoxedPointWhole(p, r, costs, parcel, w, z);
    }
    SatisfiesSplit(p.rows, p.rhs, w + z, k);
    PaddedRowsMeaning(rows, p.rows[..k], p.rhs[..k], w, z);
    SpecRowsAreExact(r, rows, p.rhs[..k], w);
  }

  lemma GatedOptimumIsCheapest(p: Program, r: Recipe, costs: seq<real>, parcel: real, x: seq<real>)
    requires WellFormed(r) && IsGatedProgram(p, r, costs, parcel) && OptimalPoint(p, x)
    ensures |x| == 2 * Sources(r) && Cheapest(r, costs, Some(parcel), x[..Sources(r)])
    ensures Dot(p.objective, x) == Dot(costs, x[..Sources(r)])
  {
    var n, k := Sources(r), 2 * Elements(r) + 2;
    var w, z := x[..n], x[n..];
    assert x == w + z;
    GatedProgramIsExact(p, r, costs, parcel, w, z);
    GatesAreExact(r, parcel, p.rows[k..], p.rhs[k..], w);
    GatesAreFree(costs, w, z);
    forall v | Draws(r, v, Some(parcel)) ensures Dot(costs, w) <= Dot(costs, v) {
      var y := GatedPointOf(p, r, costs, parcel, v);
      assert NoBetter(p, x, y);
    }
  }

  lemma GatedPointOf(p: Program, r: Recipe, costs: seq<real>, parcel: real, v: seq<real>) returns (y: seq<real>)
    requires WellFormed(r) && IsGatedProgram(p, r, costs, parcel) && Draws(r, v, Some(parcel))
    ensures FeasiblePoint(p, y) && Dot(p.objective, y) == Dot(costs, v)
  {
    var k := 2 * Elements(r) + 2;
    GatesAreExact(r, parcel, p.rows[k..], p.rhs[k..], v);
    var z :| |z| == |v| && Binary(z) && Satisfies(p.rows[k..], p.rhs[k..], v + z);
    y := v + z;
    GatedProgramIsExact(p, r, costs, parcel, v, z);
    GatesAreFree(costs, v, z);
  }

  // ---------------------------------------------------------------- blend to spec

  function InputError(r: Recipe, costs: seq<real>, parcel: Option<real>): Option<BlendError> {
    if GeometryError(r).Some? then GeometryError(r)
    else if |costs| != |r.grades| then Some(CostShape)
    else if parcel.Some? && parcel.value < 0.0 then Some(BadParcel)
    else None
  }

  /** A recipe that makes sense: a full grade matrix with a source and an element in it, one ordered window an element,
      a stock and a cost a source, something to blend, and no negative stock or parcel. */
  predicate MakesSense(r: Recipe, costs: seq<real>, parcel: Option<real>) {
    var n, m := |r.grades|, |r.lo|;
    && n >= 1 && m >= 1 && (forall s :: 0 <= s < n ==> |r.grades[s]| == m)
    && |r.hi| == m && (forall e :: 0 <= e < m ==> r.lo[e] <= r.hi[e])
    && |r.avail| == n && (forall s :: 0 <= s < n ==> r.avail[s] >= 0.0)
    && r.demand > 0.0 && |costs| == n && (parcel.Some? ==> parcel.value >= 0.0)
  }

  /** Exactly the inputs that make sense are accepted, and no other refusal is the one of an unattainable blend. */
  lemma AcceptsWhatMakesSense(r: Recipe, costs: seq<real>, parcel: Option<real>)
    ensures InputError(r, costs, parcel).None? <==> MakesSense(r, costs, parcel)
    ensures InputError(r, costs, parcel) != Some(NoBlend)
  {
  }

  method SolvePlain(r: Recipe, costs: seq<real>, solve: Program -> Option<seq<real>>) returns (w: Option<seq<real>>)
    requires WellFormed(r) && |costs| == Sources(r) && SolvesBoxed(solve)
    ensures w.Some? ==> Cheapest(r, costs, None, w.value)
    ensures w.None? ==> forall v :: !Draws(r, v, None)
  {
    var rows, rhs, bounds := SpecConstraints(r);
    var p := Program(costs, rows, rhs, bounds, {}, false);
    w := solve(p);
    if w.Some? {
      PlainOptimumIsCheapest(p, r, costs, w.value);
    } else {
      forall v ensures !Draws(r, v, None) {
        if |v| == Sources(r) { PlainProgramIsExact(p, r, costs, v); }
      }
    }
  }

  method SolveGated(r: Recipe, costs: seq<real>, parcel: real, solve: Program -> Option<seq<real>>)
    returns (value: real, w: Option<seq<real>>)
    requires WellFormed(r) && |costs| == Sources(r) && SolvesBoxed(solve)
    ensures w.Some? ==> Cheapest(r, costs, Some(parcel), w.value) && value == Dot(costs, w.value)
    ensures w.None? ==> forall v :: !Draws(r, v, Some(parcel))
  {
    var n := Sources(r);
    var rows, rhs, bounds := SpecConstraints(r);
    var padded, gates, gateRhs := MinParcelGates(r, parcel, rows);
    var k := |rows|;
    var p := Program(costs + Zeros(n), padded + gates, rhs + gateRhs,
                     bounds + seq(n, i => Bound(Some(0.0), Some(1.0))), GateIndices(n, n), false);
    assert p.rows[..k] == padded && p.rows[k..] == gates && p.rhs[..k] == rhs && p.rhs[k..] == gateRhs;
    assert PaddedSpecRows(r, padded, rhs);
    assert IsGatedProgram(p, r, costs, parcel);
    var x := solve(p);
    value := 0.0;
    if x.None? {
      forall v ensures !Draws(r, v, Some(parcel)) {
        if Draws(r, v, Some(parcel)) { var y := GatedPointOf(p, r, costs, parcel, v); }
      }
      return value, None;
    }
    GatedOptimumIsCheapest(p, r, costs, parcel, x.value);
    value := Dot(p.objective, x.value);
    w := Some(x.value[..n]);
  }

  /** The cheapest blend that meets the windows, or the refusal that no blend does. The returned blend is always
      re-checked, and the check never fails. */
  method BlendToSpec(r: Recipe, costs: seq<real>, parcel: Option<real>, solve: Program -> Option<seq<real>>)
    returns (b: Result<(real, seq<real>), BlendError>)
    requires SolvesBoxed(solve)
    ensures InputError(r, costs, parcel).Some? ==> b == Err(InputError(r, costs, parcel).value)
    ensures MakesSense(r, costs, parcel) <==> InputError(r, costs, parcel).None?
    ensures InputError(r, costs, parcel).None? ==> WellFormed(r)
    ensures InputError(r, costs, parcel).None? && b.Ok? ==>
              Cheapest(r, costs, parcel, b.value.1) && b.value.0 == Dot(costs, b.value.1)
    ensures InputError(r, costs, parcel).None? && b.Err? ==> b.error == NoBlend && forall v :: !Draws(r, v, parcel)
  {
    AcceptsWhatMakesSense(r, costs, parcel);
    var bad := InputError(r, costs, parcel);
    if bad.Some? { return Err(bad.value); }
    ValidGeometryIsWellFormed(r);
    var value, w;
    if parcel.None? {
      w := SolvePlain(r, costs, solve);
      value := if w.Some? then Dot(costs, w.value) else 0.0;
    } else {
      value, w := SolveGated(r, costs, parcel.value, solve);
    }
    if w.None? { return Err(NoBlend); }
    // The program raises when the returned blend fails its own check; on an optimal point it never does.
    BlendPassesVerification(r, w.value);
    assert VerifyBlend(r, w.value).None?;
    b := Ok((value, w.value));
  }
}
