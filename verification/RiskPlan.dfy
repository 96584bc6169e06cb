/**
 * Scenario selection under CVaR: the linear epigraph of CVaR, the mixed-integer program built on it,
 * and the plan decoded from the program's optimum.
 */
module RiskPlan {
  import opened Outcomes
  import opened Sums
  import opened Vectors
  import opened Rounding
  import opened MixedInteger
  import opened Cvar

  /** The weight of CVaR against expected value. */
  const CVAR_LAMBDA: real := 1.0

  // ---------------------------------------------------------------- the epigraph

  /** The objective row over [x, eta, u] that gives the CVaR value. */
  function CvarObjective(n: nat, k: nat, alpha: real): seq<real>
    requires alpha < 1.0 && k > 0
  {
    ChargeRow(n, k, Weight(alpha, k))
  }

  function ChargeRow(n: nat, k: nat, w: real): seq<real> {
    Zeros(n) + ([1.0] + Constant(k, w))
  }

  /** Scenario `k`'s row over [x, eta, u]: loss(x) - eta - u_k. */
  function EpigraphRow(loss: seq<real>, scenarios: nat, k: int): seq<real> {
    loss + ([-1.0] + UnitRow(scenarios, k, -1.0))
  }

  /** A point of the extended program. */
  function Point(x: seq<real>, eta: real, u: seq<real>): seq<real> {
    x + ([eta] + u)
  }

  lemma {:induction false} DotConstant(w: real, u: seq<real>)
    ensures Dot(Constant(|u|, w), u) == w * Total(u)
  {
    if u != [] {
      var rest := u[1..];
      DotConstant(w, rest);
      assert u == [u[0]] + rest && Constant(|u|, w) == [w] + Constant(|rest|, w);
      DotConcat([w], Constant(|rest|, w), [u[0]], rest);
      DotSingle(w, u[0]);
    } else {
      DotZero(Constant(0, w), u);
    }
  }

  lemma DotOnPoint(a: seq<real>, b: real, c: seq<real>, x: seq<real>, eta: real, u: seq<real>)
    requires |a| == |x|
    ensures Dot(a + ([b] + c), Point(x, eta, u)) == Dot(a, x) + (b * eta + Dot(c, u))
  {
    DotConcat(a, [b] + c, x, [eta] + u);
    DotConcat([b], c, [eta], u);
    DotSingle(b, eta);
  }

  lemma ChargeRowParts(n: nat, w: real, x: seq<real>, eta: real, u: seq<real>)
    requires |x| == n
    ensures Dot(ChargeRow(n, |u|, w), Point(x, eta, u)) == eta + Dot(Constant(|u|, w), u)
  {
    DotOnPoint(Zeros(n), 1.0, Constant(|u|, w), x, eta, u);
    DotZero(Zeros(n), x);
  }

  lemma ChargeRowValue(n: nat, w: real, x: seq<real>, eta: real, u: seq<real>)
    requires |x| == n
    ensures Dot(ChargeRow(n, |u|, w), Point(x, eta, u)) == Charged(eta, w, Total(u))
  {
    ChargeRowParts(n, w, x, eta, u);
    DotConstant(w, u);
  }

  lemma EpigraphRowValue(loss: seq<real>, k: int, x: seq<real>, eta: real, u: seq<real>)
    requires |loss| == |x| && 0 <= k < |u|
    ensures Dot(EpigraphRow(loss, |u|, k), Point(x, eta, u)) == Dot(loss, x) - eta - u[k]
  {
    DotOnPoint(loss, -1.0, UnitRow(|u|, k, -1.0), x, eta, u);
    DotUnit(|u|, k, -1.0, u);
  }

  /** `u` covers every loss in excess of `eta`. */
  ghost predicate Covers(u: seq<real>, losses: seq<real>, eta: real) {
    |u| == |losses| && forall k :: 0 <= k < |u| ==> u[k] >= 0.0 && u[k] >= losses[k] - eta
  }

  lemma {:induction false} CoverAtLeastExcess(u: seq<real>, losses: seq<real>, eta: real)
    requires Covers(u, losses, eta)
    ensures Total(u) >= TotalExcess(losses, eta)
  {
    if u != [] {
      assert Covers(u[1..], losses[1..], eta) by {
        forall k | 0 <= k < |u[1..]| ensures u[1..][k] >= 0.0 && u[1..][k] >= losses[1..][k] - eta {
          assert u[1..][k] == u[k + 1] && losses[1..][k] == losses[k + 1];
        }
      }
      CoverAtLeastExcess(u[1..], losses[1..], eta);
    }
  }

  function Excesses(losses: seq<real>, eta: real): (u: seq<real>)
    ensures |u| == |losses| && Total(u) == TotalExcess(losses, eta)
    ensures forall k :: 0 <= k < |u| ==> u[k] == Excess(losses[k], eta)
  {
    if losses == [] then [] else [Excess(losses[0], eta)] + Excesses(losses[1..], eta)
  }

  lemma ChargeMore(eta: real, w: real, a: real, b: real)
    requires w >= 0.0 && a <= b
    ensures Charged(eta, w, a) <= Charged(eta, w, b)
  {
    assert w * (b - a) >= 0.0;
  }

  /** No feasible (eta, u) prices below the CVaR. */
  lemma EpigraphNeverBelow(losses: seq<real>, alpha: real, eta: real, u: seq<real>)
    requires 0.0 < alpha < 1.0 && losses != [] && Covers(u, losses, eta)
    ensures EmpiricalCvar(losses, alpha) <= Charged(eta, Weight(alpha, |u|), Total(u))
  {
    EmpiricalCvarIsMinimum(losses, alpha);
    CoverAtLeastExcess(u, losses, eta);
    FullSlope(alpha, |u|);
    ChargeMore(eta, Weight(alpha, |u|), TotalExcess(losses, eta), Total(u));
    assert EmpiricalCvar(losses, alpha) <= Objective(losses, alpha, eta);
  }

  /** Some feasible (eta, u) prices exactly the CVaR. */
  lemma EpigraphAttains(losses: seq<real>, alpha: real) returns (eta: real, u: seq<real>)
    requires 0.0 < alpha < 1.0 && losses != []
    ensures Covers(u, losses, eta) && EmpiricalCvar(losses, alpha) == Charged(eta, Weight(alpha, |u|), Total(u))
  {
    EmpiricalCvarIsMinimum(losses, alpha);
    eta :| eta in losses && EmpiricalCvar(losses, alpha) == Objective(losses, alpha, eta);
    u := Excesses(losses, eta);
  }

  // ---------------------------------------------------------------- building the epigraph in place

  predicate Rectangular(m: seq<seq<real>>, n: nat) {
    forall k :: 0 <= k < |m| ==> |m[k]| == n
  }

  ghost predicate IsEpigraph(cAdd: seq<real>, rows: seq<seq<real>>, rhs: seq<real>, losses: seq<seq<real>>, n: nat,
                             alpha: real)
    requires 0.0 < alpha < 1.0 && losses != []
  {
    && cAdd == CvarObjective(n, |losses|, alpha)
    && |rows| == |rhs| == |losses|
    && forall k :: 0 <= k < |rows| ==> rows[k] == EpigraphRow(losses[k], |losses|, k) && rhs[k] == 0.0
  }

  datatype PlanError =
    | BadCount | NoItems | ScenarioShape | LiabilityShape | BadAlpha | MaskShape | BadSense | CapShape
    | InfeasibleProgram | FractionalSelection

  method CvarEpigraph(losses: seq<seq<real>>, n: nat, alpha: real)
    returns (r: Result<(seq<real>, seq<seq<real>>, seq<real>), PlanError>)
    requires Rectangular(losses, n)
    ensures r.Ok? <==> 0.0 < alpha < 1.0 && losses != []
    ensures r.Err? ==> r.error == if 0.0 < alpha < 1.0 then BadCount else BadAlpha
    ensures r.Ok? ==> IsEpigraph(r.value.0, r.value.1, r.value.2, losses, n, alpha)
  {
    if !(0.0 < alpha < 1.0) { return Err(BadAlpha); }
    var k := |losses|;
    if k == 0 { return Err(BadCount); }
    var width := n + 1 + k;
    var cAdd := new real[width](i => 0.0);
    cAdd[n] := 1.0;
    forall i | n + 1 <= i < width { cAdd[i] := Weight(alpha, k); }
    assert cAdd[..] == CvarObjective(n, k, alpha);
    var rows: seq<seq<real>> := [];
    for s := 0 to k
      invariant |rows| == s
      invariant forall i :: 0 <= i < s ==> rows[i] == EpigraphRow(losses[i], k, i)
      invariant cAdd[..] == CvarObjective(n, k, alpha)
    {
      var row := new real[width](i => 0.0);
      forall i | 0 <= i < n { row[i] := losses[s][i]; }
      row[n] := -1.0;
      row[n + 1 + s] := -1.0;
      assert row[..] == EpigraphRow(losses[s], k, s);
      rows := rows + [row[..]];
    }
    r := Ok((cAdd[..], rows, Zeros(k)));
  }

  // ---------------------------------------------------------------- the epigraph encodes CVaR

  /** The scenario losses of a decision. */
  function LossesAt(losses: seq<seq<real>>, x: seq<real>): (r: seq<real>)
    ensures |r| == |losses| && forall k :: 0 <= k < |r| ==> r[k] == Dot(losses[k], x)
  {
    seq(|losses|, k requires 0 <= k < |losses| => Dot(losses[k], x))
  }

  ghost predicate NonNegative(u: seq<real>) {
    forall k :: 0 <= k < |u| ==> u[k] >= 0.0
  }

  lemma EpigraphRowsCover(cAdd: seq<real>, rows: seq<seq<real>>, rhs: seq<real>, losses: seq<seq<real>>, n: nat,
                          alpha: real, x: seq<real>, eta: real, u: seq<real>)
    requires 0.0 < alpha < 1.0 && losses != [] && Rectangular(losses, n)
    requires IsEpigraph(cAdd, rows, rhs, losses, n, alpha) && |x| == n && |u| == |losses|
    ensures Satisfies(rows, rhs, Point(x, eta, u)) && NonNegative(u) <==> Covers(u, LossesAt(losses, x), eta)
  {
    forall k | 0 <= k < |rows| ensures Dot(rows[k], Point(x, eta, u)) == LossesAt(losses, x)[k] - eta - u[k] {
      EpigraphRowValue(losses[k], k, x, eta, u);
    }
    if Covers(u, LossesAt(losses, x), eta) {
      forall k | 0 <= k < |rows| ensures Dot(rows[k], Point(x, eta, u)) <= rhs[k] {}
    }
    if Satisfies(rows, rhs, Point(x, eta, u)) && NonNegative(u) {
      forall k | 0 <= k < |u| ensures u[k] >= LossesAt(losses, x)[k] - eta {
        assert Dot(rows[k], Point(x, eta, u)) <= rhs[k];
      }
    }
  }

  /** For a fixed decision, the least value of the epigraph objective over its rows and `u >= 0` is exactly the CVaR
      of the losses at that decision. */
  lemma EpigraphIsCvar(cAdd: seq<real>, rows: seq<seq<real>>, rhs: seq<real>, losses: seq<seq<real>>, n: nat,
                       alpha: real, x: seq<real>)
    requires 0.0 < alpha < 1.0 && losses != [] && Rectangular(losses, n)
    requires IsEpigraph(cAdd, rows, rhs, losses, n, alpha) && |x| == n
    ensures forall eta, u :: |u| == |losses| && NonNegative(u) && Satisfies(rows, rhs, Point(x, eta, u)) ==>
              EmpiricalCvar(LossesAt(losses, x), alpha) <= Dot(cAdd, Point(x, eta, u))
    ensures exists eta, u :: |u| == |losses| && NonNegative(u) && Satisfies(rows, rhs, Point(x, eta, u)) &&
              EmpiricalCvar(LossesAt(losses, x), alpha) == Dot(cAdd, Point(x, eta, u))
  {
    forall eta, u | |u| == |losses| && NonNegative(u) && Satisfies(rows, rhs, Point(x, eta, u))
      ensures EmpiricalCvar(LossesAt(losses, x), alpha) <= Dot(cAdd, Point(x, eta, u))
    {
      EpigraphRowsCover(cAdd, rows, rhs, losses, n, alpha, x, eta, u);
      EpigraphNeverBelow(LossesAt(losses, x), alpha, eta, u);
      ChargeRowValue(n, Weight(alpha, |u|), x, eta, u);
    }
    var eta, u := EpigraphAttains(LossesAt(losses, x), alpha);
    EpigraphRowsCover(cAdd, rows, rhs, losses, n, alpha, x, eta, u);
    ChargeRowValue(n, Weight(alpha, |u|), x, eta, u);
  }

  // ---------------------------------------------------------------- the selection problem itself

  datatype Cap = Cap(coeffs: seq<real>, bound: real, sense: string)

  predicate CapHolds(cap: Cap, x: seq<real>) {
    if cap.sense == ">=" then Dot(cap.coeffs, x) >= cap.bound else Dot(cap.coeffs, x) <= cap.bound
  }

  predicate Excluded(mask: Option<seq<bool>>, b: int) {
    mask.Some? && 0 <= b < |mask.value| && mask.value[b]
  }

  /** A 0/1 selection that leaves out every excluded item and meets every cap. */
  ghost predicate Allowed(x: seq<real>, n: nat, mask: Option<seq<bool>>, caps: seq<Cap>) {
    && |x| == n && Binary(x)
    && (forall b :: 0 <= b < n && Excluded(mask, b) ==> x[b] == 0.0)
    && (forall i :: 0 <= i < |caps| ==> CapHolds(caps[i], x))
  }

  function NegatedRows(m: seq<seq<real>>): (r: seq<seq<real>>)
    ensures |r| == |m| && forall k :: 0 <= k < |r| ==> r[k] == Negated(m[k])
  {
    seq(|m|, k requires 0 <= k < |m| => Negated(m[k]))
  }

  function ColumnTotal(m: seq<seq<real>>, b: int): real {
    Sum(|m|, k => if 0 <= k < |m| && 0 <= b < |m[k]| then m[k][b] else 0.0)
  }

  /** The average over scenarios, item by item. */
  function MeanProfit(profit: seq<seq<real>>, n: nat): (r: seq<real>)
    requires profit != []
    ensures |r| == n && forall b :: 0 <= b < n ==> r[b] == ColumnTotal(profit, b) / |profit| as real
  {
    seq(n, b => ColumnTotal(profit, b) / |profit| as real)
  }

  /** Expected value minus the CVaR of the scenario losses: what a plan is to maximise. */
  function Merit(profit: seq<seq<real>>, n: nat, alpha: real, x: seq<real>): real
    requires alpha < 1.0 && profit != []
  {
    Dot(MeanProfit(profit, n), x) - EmpiricalCvar(LossesAt(NegatedRows(profit), x), alpha)
  }

  // ---------------------------------------------------------------- the mixed-integer program

  function ItemBound(mask: Option<seq<bool>>, b: int): Bound {
    if Excluded(mask, b) then Bound(Some(0.0), Some(0.0)) else Bound(Some(0.0), Some(1.0))
  }

  const FREE: Bound := Bound(None, None)
  const AT_LEAST_ZERO: Bound := Bound(Some(0.0), None)

  function CapRow(cap: Cap, scenarios: nat): seq<real> {
    (if cap.sense == ">=" then Negated(cap.coeffs) else cap.coeffs) + Zeros(1 + scenarios)
  }

  function CapLimit(cap: Cap): real {
    if cap.sense == ">=" then -cap.bound else cap.bound
  }

  /** Expected value less the weighted CVaR, coefficient by coefficient. */
  function Traded(ev: seq<real>, cvar: seq<real>): (r: seq<real>)
    requires |ev| == |cvar|
    ensures |r| == |ev| && forall i :: 0 <= i < |r| ==> r[i] == ev[i] - CVAR_LAMBDA * cvar[i]
  {
    seq(|ev|, i requires 0 <= i < |ev| => ev[i] - CVAR_LAMBDA * cvar[i])
  }

  ghost predicate IsSelectionProgram(p: Program, profit: seq<seq<real>>, n: nat, alpha: real, mask: Option<seq<bool>>,
                                     caps: seq<Cap>)
    requires 0.0 < alpha < 1.0 && profit != []
  {
    var k := |profit|;
    && p.maximise && (forall i :: i in p.integer <==> 0 <= i < n)
    && |p.objective| == |p.bounds| == n + 1 + k
    && p.objective == Traded(MeanProfit(profit, n) + Zeros(1 + k), CvarObjective(n, k, alpha))
    && (forall b :: 0 <= b < n ==> p.bounds[b] == ItemBound(mask, b))
    && p.bounds[n] == FREE && (forall i :: n < i < |p.bounds| ==> p.bounds[i] == AT_LEAST_ZERO)
    && |p.rows| == |p.rhs| == k + |caps|
    && IsEpigraph(CvarObjective(n, k, alpha), p.rows[..k], p.rhs[..k], NegatedRows(profit), n, alpha)
    && (forall i :: 0 <= i < |caps| ==> p.rows[k..][i] == CapRow(caps[i], k) && p.rhs[k..][i] == CapLimit(caps[i]))
  }

  predicate CapsFit(caps: seq<Cap>, n: nat) {
    forall i :: 0 <= i < |caps| ==> |caps[i].coeffs| == n && (caps[i].sense == "<=" || caps[i].sense == ">=")
  }

  lemma CapRowMeaning(cap: Cap, x: seq<real>, eta: real, u: seq<real>)
    requires |cap.coeffs| == |x|
    ensures Dot(CapRow(cap, |u|), Point(x, eta, u)) <= CapLimit(cap) <==> CapHolds(cap, x)
  {
    var coeffs := if cap.sense == ">=" then Negated(cap.coeffs) else cap.coeffs;
    DotConcat(coeffs, Zeros(1 + |u|), x, [eta] + u);
    DotZero(Zeros(1 + |u|), [eta] + u);
    DotNegated(cap.coeffs, x);
  }

  lemma CapRowsMeaning(rows: seq<seq<real>>, rhs: seq<real>, caps: seq<Cap>, x: seq<real>, eta: real, u: seq<real>)
    requires |rows| == |rhs| == |caps| && CapsFit(caps, |x|)
    requires forall i :: 0 <= i < |caps| ==> rows[i] == CapRow(caps[i], |u|) && rhs[i] == CapLimit(caps[i])
    ensures Satisfies(rows, rhs, Point(x, eta, u)) <==> forall i :: 0 <= i < |caps| ==> CapHolds(caps[i], x)
  {
    forall i | 0 <= i < |caps| ensures Dot(rows[i], Point(x, eta, u)) <= rhs[i] <==> CapHolds(caps[i], x) {
      CapRowMeaning(caps[i], x, eta, u);
    }
  }

  /** Every coordinate is within its bounds, and whole where it must be. */
  ghost predicate InBox(p: Program, z: seq<real>)
    requires |z| == |p.bounds|
  {
    && (forall i :: 0 <= i < |z| ==> WithinBound(p.bounds[i], z[i]))
    && (forall i :: 0 <= i < |z| && i in p.integer ==> z[i] == z[i].Floor as real)
  }

  /** A 0/1 selection that leaves out what is excluded, with non-negative excesses. */
  ghost predicate Selects(n: nat, mask: Option<seq<bool>>, x: seq<real>, u: seq<real>)
    requires |x| == n
  {
    Binary(x) && (forall b :: 0 <= b < n && Excluded(mask, b) ==> x[b] == 0.0) && NonNegative(u)
  }

  /** The bounds of a selection program: its items', a free threshold, and the excesses'. */
  ghost predicate SelectionBounds(p: Program, n: nat, k: nat, mask: Option<seq<bool>>) {
    && |p.bounds| == n + 1 + k && p.bounds[n] == FREE
    && (forall b :: 0 <= b < n ==> p.bounds[b] == ItemBound(mask, b))
    && (forall i :: n < i < |p.bounds| ==> p.bounds[i] == AT_LEAST_ZERO)
    && (forall i :: i in p.integer <==> 0 <= i < n)
  }

  lemma BoxedItem(p: Program, n: nat, k: nat, mask: Option<seq<bool>>, z: seq<real>, b: int)
    requires SelectionBounds(p, n, k, mask) && |z| == n + 1 + k && InBox(p, z) && 0 <= b < n
    ensures (z[b] == 0.0 || z[b] == 1.0) && (Excluded(mask, b) ==> z[b] == 0.0)
  {
    assert WithinBound(p.bounds[b], z[b]);
    UnitInteger(z[b]);
  }

  lemma BoxSelects(p: Program, n: nat, mask: Option<seq<bool>>, x: seq<real>, eta: real, u: seq<real>)
    requires SelectionBounds(p, n, |u|, mask) && |x| == n && InBox(p, Point(x, eta, u))
    ensures Selects(n, mask, x, u)
  {
    var z := Point(x, eta, u);
    forall b | 0 <= b < n ensures (x[b] == 0.0 || x[b] == 1.0) && (Excluded(mask, b) ==> x[b] == 0.0) {
      assert z[b] == x[b];
      BoxedItem(p, n, |u|, mask, z, b);
    }
    forall k | 0 <= k < |u| ensures u[k] >= 0.0 {
      assert z[n + 1 + k] == u[k];
      assert WithinBound(p.bounds[n + 1 + k], z[n + 1 + k]);
    }
  }

  lemma SelectsFitsBox(p: Program, n: nat, mask: Option<seq<bool>>, x: seq<real>, eta: real, u: seq<real>)
    requires SelectionBounds(p, n, |u|, mask) && |x| == n && Selects(n, mask, x, u)
    ensures InBox(p, Point(x, eta, u))
  {
    var z := Point(x, eta, u);
    forall i | 0 <= i < |z|
      ensures WithinBound(p.bounds[i], z[i]) && (i in p.integer ==> z[i] == z[i].Floor as real)
    {
      if i < n { assert z[i] == x[i]; } else if i > n { assert z[i] == u[i - n - 1]; }
    }
  }

  lemma BoundsMeaning(p: Program, profit: seq<seq<real>>, n: nat, alpha: real, mask: Option<seq<bool>>, caps: seq<Cap>,
                      x: seq<real>, eta: real, u: seq<real>)
    requires 0.0 < alpha < 1.0 && profit != [] && IsSelectionProgram(p, profit, n, alpha, mask, caps)
    requires |x| == n && |u| == |profit|
    ensures |p.bounds| == |Point(x, eta, u)| && (InBox(p, Point(x, eta, u)) <==> Selects(n, mask, x, u))
  {
    assert SelectionBounds(p, n, |u|, mask);
    if InBox(p, Point(x, eta, u)) { BoxSelects(p, n, mask, x, eta, u); }
    if Selects(n, mask, x, u) { SelectsFitsBox(p, n, mask, x, eta, u); }
  }

  /** A point is feasible exactly when its selection is allowed and its (eta, u) covers the scenario losses. */
  lemma FeasibleMeansAllowed(p: Program, profit: seq<seq<real>>, n: nat, alpha: real, mask: Option<seq<bool>>,
                             caps: seq<Cap>, x: seq<real>, eta: real, u: seq<real>)
    requires 0.0 < alpha < 1.0 && profit != [] && Rectangular(profit, n) && CapsFit(caps, n)
    requires IsSelectionProgram(p, profit, n, alpha, mask, caps) && |x| == n && |u| == |profit|
    ensures FeasiblePoint(p, Point(x, eta, u)) <==>
      Allowed(x, n, mask, caps) && Covers(u, LossesAt(NegatedRows(profit), x), eta)
  {
    var k, losses := |profit|, NegatedRows(profit);
    BoundsMeaning(p, profit, n, alpha, mask, caps, x, eta, u);
    SatisfiesSplit(p.rows, p.rhs, Point(x, eta, u), k);
    EpigraphRowsCover(CvarObjective(n, k, alpha), p.rows[..k], p.rhs[..k], losses, n, alpha, x, eta, u);
    CapRowsMeaning(p.rows[k..], p.rhs[k..], caps, x, eta, u);
  }

  /** The program's objective at a point: expected value minus the priced risk. */
  lemma ObjectiveMeaning(p: Program, profit: seq<seq<real>>, n: nat, alpha: real, mask: Option<seq<bool>>,
                         caps: seq<Cap>, x: seq<real>, eta: real, u: seq<real>)
    requires 0.0 < alpha < 1.0 && profit != []
    requires IsSelectionProgram(p, profit, n, alpha, mask, caps) && |x| == n && |u| == |profit|
    ensures Dot(p.objective, Point(x, eta, u)) ==
      Dot(MeanProfit(profit, n), x) - Charged(eta, Weight(alpha, |u|), Total(u))
  {
    var k, mean, z := |profit|, MeanProfit(profit, n), Point(x, eta, u);
    var ev, cv := mean + Zeros(1 + k), CvarObjective(n, k, alpha);
    DotSub(ev, cv, p.objective, z);
    DotConcat(mean, Zeros(1 + k), x, [eta] + u);
    DotZero(Zeros(1 + k), [eta] + u);
    ChargeRowValue(n, Weight(alpha, k), x, eta, u);
  }

  // ---------------------------------------------------------------- optimal points are best selections

  ghost predicate BestSelection(profit: seq<seq<real>>, n: nat, alpha: real, mask: Option<seq<bool>>, caps: seq<Cap>,
                                x: seq<real>)
    requires 0.0 < alpha < 1.0 && profit != []
  {
    && Allowed(x, n, mask, caps)
    && forall y :: Allowed(y, n, mask, caps) ==> Merit(profit, n, alpha, y) <= Merit(profit, n, alpha, x)
  }

  /** The threshold and excesses that price a selection's risk exactly. */
  lemma PricedPoint(p: Program, profit: seq<seq<real>>, n: nat, alpha: real, mask: Option<seq<bool>>, caps: seq<Cap>,
                    y: seq<real>)
    returns (z: seq<real>)
    requires 0.0 < alpha < 1.0 && profit != [] && Rectangular(profit, n) && CapsFit(caps, n)
    requires IsSelectionProgram(p, profit, n, alpha, mask, caps) && Allowed(y, n, mask, caps)
    ensures FeasiblePoint(p, z) && Dot(p.objective, z) == Merit(profit, n, alpha, y)
  {
    var eta, u := EpigraphAttains(LossesAt(NegatedRows(profit), y), alpha);
    z := Point(y, eta, u);
    FeasibleMeansAllowed(p, profit, n, alpha, mask, caps, y, eta, u);
    ObjectiveMeaning(p, profit, n, alpha, mask, caps, y, eta, u);
  }

  /** The selection part of a feasible point is allowed, and the objective never overstates its merit. */
  lemma PointAtMostMerit(p: Program, profit: seq<seq<real>>, n: nat, alpha: real, mask: Option<seq<bool>>,
                         caps: seq<Cap>, z: seq<real>)
    requires 0.0 < alpha < 1.0 && profit != [] && Rectangular(profit, n) && CapsFit(caps, n)
    requires IsSelectionProgram(p, profit, n, alpha, mask, caps) && FeasiblePoint(p, z)
    ensures |z| > n && Allowed(z[..n], n, mask, caps) && Dot(p.objective, z) <= Merit(profit, n, alpha, z[..n])
  {
    var x, eta, u := z[..n], z[n], z[n + 1..];
    assert z == Point(x, eta, u);
    FeasibleMeansAllowed(p, profit, n, alpha, mask, caps, x, eta, u);
    ObjectiveMeaning(p, profit, n, alpha, mask, caps, x, eta, u);
    EpigraphNeverBelow(LossesAt(NegatedRows(profit), x), alpha, eta, u);
  }

  /** The selection decoded from an optimal point has the greatest merit of all allowed selections. */
  lemma OptimalPointIsBest(p: Program, profit: seq<seq<real>>, n: nat, alpha: real, mask: Option<seq<bool>>,
                           caps: seq<Cap>, z: seq<real>)
    requires 0.0 < alpha < 1.0 && profit != [] && Rectangular(profit, n) && CapsFit(caps, n)
    requires IsSelectionProgram(p, profit, n, alpha, mask, caps) && OptimalPoint(p, z)
    ensures |z| > n && BestSelection(profit, n, alpha, mask, caps, z[..n])
  {
    PointAtMostMerit(p, profit, n, alpha, mask, caps, z);
    forall y | Allowed(y, n, mask, caps) ensures Merit(profit, n, alpha, y) <= Merit(profit, n, alpha, z[..n]) {
      var w := PricedPoint(p, profit, n, alpha, mask, caps, y);
      assert NoBetter(p, z, w);
    }
  }

  /** Conversely a best selection gives an optimal point, so the program has an optimum. */
  lemma BestIsOptimalPoint(p: Program, profit: seq<seq<real>>, n: nat, alpha: real, mask: Option<seq<bool>>,
                           caps: seq<Cap>, x: seq<real>)
    returns (z: seq<real>)
    requires 0.0 < alpha < 1.0 && profit != [] && Rectangular(profit, n) && CapsFit(caps, n)
    requires IsSelectionProgram(p, profit, n, alpha, mask, caps) && BestSelection(profit, n, alpha, mask, caps, x)
    ensures OptimalPoint(p, z)
  {
    z := PricedPoint(p, profit, n, alpha, mask, caps, x);
    forall y | FeasiblePoint(p, y) ensures NoBetter(p, z, y) {
      PointAtMostMerit(p, profit, n, alpha, mask, caps, y);
    }
  }

  /** Among the allowed selections extending `prefix`, if any, one has the greatest merit. */
  lemma BestExtension(profit: seq<seq<real>>, n: nat, alpha: real, mask: Option<seq<bool>>, caps: seq<Cap>,
                      prefix: seq<real>)
    returns (best: Option<seq<real>>)
    requires 0.0 < alpha < 1.0 && profit != [] && |prefix| <= n && Binary(prefix)
    ensures best.Some? ==> Allowed(best.value, n, mask, caps)
    ensures forall y :: Allowed(y, n, mask, caps) && prefix <= y ==>
              best.Some? && Merit(profit, n, alpha, y) <= Merit(profit, n, alpha, best.value)
    decreases n - |prefix|
  {
    if |prefix| == n {
      best := if Allowed(prefix, n, mask, caps) then Some(prefix) else None;
      assert forall y: seq<real> :: |y| == n && prefix <= y ==> y == prefix;
    } else {
      var zero := BestExtension(profit, n, alpha, mask, caps, prefix + [0.0]);
      var one := BestExtension(profit, n, alpha, mask, caps, prefix + [1.0]);
      forall y | Allowed(y, n, mask, caps) && prefix <= y ensures prefix + [0.0] <= y || prefix + [1.0] <= y {
        assert y[|prefix|] == 0.0 || y[|prefix|] == 1.0;
      }
      best := if one.Some? && (zero.None? || Merit(profit, n, alpha, zero.value) < Merit(profit, n, alpha, one.value))
              then one else zero;
    }
  }

  /** The solver answers exactly when some selection is allowed. */
  lemma AnswersWhenAllowed(p: Program, profit: seq<seq<real>>, n: nat, alpha: real, mask: Option<seq<bool>>,
                           caps: seq<Cap>,
                           solve: Program -> Option<seq<real>>)
    requires 0.0 < alpha < 1.0 && profit != [] && Rectangular(profit, n) && CapsFit(caps, n)
    requires IsSelectionProgram(p, profit, n, alpha, mask, caps) && SolvesExactly(solve)
    ensures solve(p).Some? <==> exists x :: Allowed(x, n, mask, caps)
  {
    if x :| Allowed(x, n, mask, caps) {
      var best := BestExtension(profit, n, alpha, mask, caps, []);
      var z := BestIsOptimalPoint(p, profit, n, alpha, mask, caps, best.value);
    }
    if solve(p).Some? {
      OptimalPointIsBest(p, profit, n, alpha, mask, caps, solve(p).value);
    }
  }

  // ---------------------------------------------------------------- the discrete plan

  datatype Plan = Plan(extract: seq<bool>, expectedValue: real, cvar: real, scenarios: seq<seq<real>>)

  function Indicator(extract: seq<bool>): (x: seq<real>)
    ensures |x| == |extract| && forall i :: 0 <= i < |x| ==> x[i] == if extract[i] then 1.0 else 0.0
  {
    seq(|extract|, i requires 0 <= i < |extract| => if extract[i] then 1.0 else 0.0)
  }

  function Deviation(v: real): real {
    var d := v - RoundHalfEven(v) as real;
    if d < 0.0 then -d else d
  }

  /** The selection rounded off the solver's point, and the figures recomputed from it. */
  function DiscretePlan(point: seq<real>, n: nat, profit: seq<seq<real>>, alpha: real)
    : (r: Result<(seq<bool>, real, real), PlanError>)
    requires 0.0 < alpha < 1.0 && profit != [] && |point| >= n
    ensures r.Err? <==> exists b :: 0 <= b < n && Deviation(point[b]) > 0.000001
    ensures r.Err? ==> r.error == FractionalSelection
    ensures r.Ok? ==> |r.value.0| == n && r.value.1 == Dot(MeanProfit(profit, n), Indicator(r.value.0))
    ensures r.Ok? ==> IsCvar(LossesAt(NegatedRows(profit), Indicator(r.value.0)), alpha, r.value.2)
  {
    if exists b :: 0 <= b < n && Deviation(point[b]) > 0.000001 then Err(FractionalSelection)
    else
      var extract := seq(n, b requires 0 <= b < n => RoundHalfEven(point[b]) != 0);
      var losses := LossesAt(NegatedRows(profit), Indicator(extract));
      EmpiricalCvarIsMinimum(losses, alpha);
      Ok((extract, Dot(MeanProfit(profit, n), Indicator(extract)), EmpiricalCvar(losses, alpha)))
  }

  /** On a 0/1 selection the rounding is the identity, and both figures are those of the selection. */
  lemma DiscretePlanOfBinary(point: seq<real>, n: nat, profit: seq<seq<real>>, alpha: real)
    requires 0.0 < alpha < 1.0 && profit != [] && |point| >= n && Binary(point[..n])
    ensures DiscretePlan(point, n, profit, alpha).Ok?
    ensures var (extract, expected, cvar) := DiscretePlan(point, n, profit, alpha).value;
      Indicator(extract) == point[..n] && expected == Dot(MeanProfit(profit, n), point[..n])
      && IsCvar(LossesAt(NegatedRows(profit), point[..n]), alpha, cvar)
  {
    forall b | 0 <= b < n ensures RoundHalfEven(point[b]) as real == point[b] {
      assert point[..n][b] == point[b];
      assert (0.0).Floor == 0 && (1.0).Floor == 1;
    }
  }

  // ---------------------------------------------------------------- the planner

  /** The first malformed cap decides the error: an unknown sense before a wrong length. */
  function CapError(cap: Cap, n: nat): Option<PlanError> {
    if cap.sense != "<=" && cap.sense != ">=" then Some(BadSense)
    else if |cap.coeffs| != n then Some(CapShape)
    else None
  }

  function FirstCapError(caps: seq<Cap>, n: nat): (e: Option<PlanError>)
    ensures e.None? <==> CapsFit(caps, n)
  {
    if caps == [] then None
    else if CapError(caps[0], n).Some? then
      assert !CapsFit(caps, n);
      CapError(caps[0], n)
    else
      assert CapsFit(caps[1..], n) ==> CapsFit(caps, n) by {
        assert forall i :: 0 < i < |caps| ==> caps[i] == caps[1..][i - 1];
      }
      assert CapsFit(caps, n) ==> CapsFit(caps[1..], n);
      FirstCapError(caps[1..], n)
  }

  /** Exclusions overwrite the default 0/1 bounds of the items they name. */
  method BuildBounds(n: nat, scenarios: nat, mask: Option<seq<bool>>) returns (bounds: seq<Bound>)
    requires mask.Some? ==> |mask.value| == n
    ensures |bounds| == n + 1 + scenarios && bounds[n] == FREE
    ensures forall b :: 0 <= b < n ==> bounds[b] == ItemBound(mask, b)
    ensures forall i :: n < i < |bounds| ==> bounds[i] == AT_LEAST_ZERO
  {
    bounds := seq(n, i => Bound(Some(0.0), Some(1.0))) + [FREE] + seq(scenarios, i => AT_LEAST_ZERO);
    if mask.Some? {
      for b := 0 to n
        invariant |bounds| == n + 1 + scenarios && bounds[n] == FREE
        invariant forall i :: 0 <= i < b ==> bounds[i] == ItemBound(mask, i)
        invariant forall i :: b <= i < n ==> bounds[i] == Bound(Some(0.0), Some(1.0))
        invariant forall i :: n < i < |bounds| ==> bounds[i] == AT_LEAST_ZERO
      {
        if mask.value[b] { bounds := bounds[b := Bound(Some(0.0), Some(0.0))]; }
      }
    }
  }

  function FirstItems(n: nat): (r: set<int>)
    ensures forall i :: i in r <==> 0 <= i < n
  {
    if n == 0 then {} else FirstItems(n - 1) + {n - 1}
  }

  method BuildCapRows(n: nat, scenarios: nat, caps: seq<Cap>)
    returns (failure: Option<PlanError>, rows: seq<seq<real>>, rhs: seq<real>)
    ensures failure == FirstCapError(caps, n)
    ensures failure.None? ==> |rows| == |rhs| == |caps|
    ensures failure.None? ==> forall i :: 0 <= i < |caps| ==>
      rows[i] == CapRow(caps[i], scenarios) && rhs[i] == CapLimit(caps[i])
  {
    rows, rhs := [], [];
    for i := 0 to |caps|
      invariant |rows| == |rhs| == i && FirstCapError(caps, n) == FirstCapError(caps[i..], n)
      invariant forall j :: 0 <= j < i ==> rows[j] == CapRow(caps[j], scenarios) && rhs[j] == CapLimit(caps[j])
    {
      var cap := caps[i];
      assert caps[i..][1..] == caps[i + 1..];
      if CapError(cap, n).Some? { return CapError(cap, n), rows, rhs; }
      var coeffs, bound := cap.coeffs, cap.bound;
      if cap.sense == ">=" { coeffs, bound := Negated(coeffs), -bound; }
      rows := rows + [coeffs + Zeros(1 + scenarios)];
      rhs := rhs + [bound];
    }
    failure := None;
  }

  /** What a plan promises: its selection has the greatest merit of all allowed ones, and both figures are its own. */
  ghost predicate IsPlan(plan: Plan, profit: seq<seq<real>>, n: nat, alpha: real, mask: Option<seq<bool>>,
                         caps: seq<Cap>)
    requires 0.0 < alpha < 1.0 && profit != []
  {
    var x := Indicator(plan.extract);
    && BestSelection(profit, n, alpha, mask, caps, x)
    && plan.expectedValue == Dot(MeanProfit(profit, n), x)
    && IsCvar(LossesAt(NegatedRows(profit), x), alpha, plan.cvar)
  }

  /** The checks made while the program is built: the risk level, then the exclusion mask, then each cap in turn. */
  function ConstraintError(n: nat, alpha: real, mask: Option<seq<bool>>, caps: seq<Cap>): (e: Option<PlanError>)
    ensures e.None? <==> 0.0 < alpha < 1.0 && (mask.Some? ==> |mask.value| == n) && CapsFit(caps, n)
  {
    if !(0.0 < alpha < 1.0) then Some(BadAlpha)
    else if mask.Some? && |mask.value| != n then Some(MaskShape)
    else FirstCapError(caps, n)
  }

  /** Build the program for one profit matrix, solve it, and decode the plan. */
  method SolveSelection(profit: seq<seq<real>>, scenarios: seq<seq<real>>, n: nat, alpha: real, mask: Option<seq<bool>>,
                        caps: seq<Cap>, solve: Program -> Option<seq<real>>)
    returns (r: Result<Plan, PlanError>)
    requires Rectangular(profit, n) && SolvesExactly(solve) && profit != []
    ensures ConstraintError(n, alpha, mask, caps).Some? ==> r == Err(ConstraintError(n, alpha, mask, caps).value)
    ensures ConstraintError(n, alpha, mask, caps).None? ==>
              if exists x :: Allowed(x, n, mask, caps)
              then r.Ok? && IsPlan(r.value, profit, n, alpha, mask, caps) && r.value.scenarios == scenarios
              else r == Err(InfeasibleProgram)
  {
    var k := |profit|;
    var epigraph := CvarEpigraph(NegatedRows(profit), n, alpha);
    if epigraph.Err? { return Err(epigraph.error); }
    var (cAdd, rows, rhs) := epigraph.value;
    if mask.Some? && |mask.value| != n { return Err(MaskShape); }
    var bounds := BuildBounds(n, k, mask);
    var failure, capRows, capRhs := BuildCapRows(n, k, caps);
    if failure.Some? { return Err(failure.value); }
    var objective := Traded(MeanProfit(profit, n) + Zeros(1 + k), cAdd);
    var program := Program(objective, rows + capRows, rhs + capRhs, bounds, FirstItems(n), true);
    assert program.rows[..k] == rows && program.rhs[..k] == rhs && program.rows[k..] == capRows
      && program.rhs[k..] == capRhs;
    assert IsSelectionProgram(program, profit, n, alpha, mask, caps);
    AnswersWhenAllowed(program, profit, n, alpha, mask, caps, solve);
    var solved := solve(program);
    if solved.None? { return Err(InfeasibleProgram); }
    OptimalPointIsBest(program, profit, n, alpha, mask, caps, solved.value);
    DiscretePlanOfBinary(solved.value, n, profit, alpha);
    var plan := DiscretePlan(solved.value, n, profit, alpha);
    r := Ok(Plan(plan.value.0, plan.value.1, plan.value.2, scenarios));
  }

  /** Per-scenario, per-item value: revenue at the drawn grade, less cost and priced liability. */
  function ProfitMatrix(g: seq<seq<real>>, price: real, cost: seq<real>, liability: seq<real>): (m: seq<seq<real>>)
    requires Rectangular(g, |cost|) && |liability| == |cost|
    ensures |m| == |g| && Rectangular(m, |cost|)
    ensures forall k, b :: 0 <= k < |m| && 0 <= b < |cost| ==> m[k][b] == price * g[k][b] - cost[b] - liability[b]
  {
    seq(|g|, k requires 0 <= k < |g| =>
      seq(|cost|, b requires 0 <= b < |cost| => price * g[k][b] - cost[b] - liability[b]))
  }

  function LiabilityOr0(liability: Option<seq<real>>, n: nat): (r: seq<real>)
    ensures liability.Some? ==> r == liability.value
    ensures liability.None? ==> |r| == n && forall b :: 0 <= b < n ==> r[b] == 0.0
  {
    if liability.Some? then liability.value else Zeros(n)
  }

  /** The checks made before any program is built. */
  function InputError(g: seq<seq<real>>, cost: seq<real>, liability: Option<seq<real>>,
                      kScenarios: int): (e: Option<PlanError>)
    ensures e.None? <==>
      |g| == kScenarios >= 1 && |cost| >= 1 && (forall k :: 0 <= k < |g| ==> |g[k]| == |cost|)
      && (liability.Some? ==> |liability.value| == |cost|)
  {
    if kScenarios < 1 then Some(BadCount)
    else if cost == [] then Some(NoItems)
    else if |g| != kScenarios || !Rectangular(g, |cost|) then Some(ScenarioShape)
    else if liability.Some? && |liability.value| != |cost| then Some(LiabilityShape)
    else None
  }

  /** The first check that fails, of all those made before the program is solved. */
  function FirstError(g: seq<seq<real>>, cost: seq<real>, liability: Option<seq<real>>, kScenarios: int, alpha: real,
                      mask: Option<seq<bool>>, caps: seq<Cap>): (e: Option<PlanError>)
    ensures e.None? ==> InputError(g, cost, liability, kScenarios).None? && 0.0 < alpha < 1.0
  {
    if InputError(g, cost, liability, kScenarios).Some? then InputError(g, cost, liability, kScenarios)
    else ConstraintError(|cost|, alpha, mask, caps)
  }

  /** The risk-adjusted plan: net of liabilities, under exclusions and caps. `g` is the scenario draw. */
  method RiskAdjustedPlan(g: seq<seq<real>>, cost: seq<real>, price: real, liability: Option<seq<real>>,
                          mask: Option<seq<bool>>, caps: seq<Cap>, kScenarios: int, alpha: real,
                          solve: Program -> Option<seq<real>>)
    returns (r: Result<Plan, PlanError>)
    requires SolvesExactly(solve)
    ensures FirstError(g, cost, liability, kScenarios, alpha, mask, caps).Some? ==>
              r == Err(FirstError(g, cost, liability, kScenarios, alpha, mask, caps).value)
    ensures FirstError(g, cost, liability, kScenarios, alpha, mask, caps).None? ==>
              if exists x :: Allowed(x, |cost|, mask, caps)
              then r.Ok? && r.value.scenarios == g
                && IsPlan(r.value, ProfitMatrix(g, price, cost, LiabilityOr0(liability, |cost|)), |cost|, alpha, mask,
                  caps)
              else r == Err(InfeasibleProgram)
  {
    var bad := InputError(g, cost, liability, kScenarios);
    if bad.Some? { return Err(bad.value); }
    var profit := ProfitMatrix(g, price, cost, LiabilityOr0(liability, |cost|));
    r := SolveSelection(profit, g, |cost|, alpha, mask, caps, solve);
  }

  /** What a plan obeys, item by item and cap by cap: nothing excluded is selected, and every cap holds in its own
      sense. */
  lemma PlanObeys(plan: Plan, profit: seq<seq<real>>, n: nat, alpha: real, mask: Option<seq<bool>>, caps: seq<Cap>)
    requires 0.0 < alpha < 1.0 && profit != [] && IsPlan(plan, profit, n, alpha, mask, caps)
    ensures |plan.extract| == n
    ensures mask.Some? ==> forall b :: 0 <= b < n && b < |mask.value| && mask.value[b] ==> !plan.extract[b]
    ensures forall i :: 0 <= i < |caps| && caps[i].sense == "<=" ==>
      Dot(caps[i].coeffs, Indicator(plan.extract)) <= caps[i].bound
    ensures forall i :: 0 <= i < |caps| && caps[i].sense == ">=" ==>
      Dot(caps[i].coeffs, Indicator(plan.extract)) >= caps[i].bound
  {
    var x := Indicator(plan.extract);
    if mask.Some? {
      forall b | 0 <= b < n && b < |mask.value| && mask.value[b] ensures !plan.extract[b] { assert Excluded(mask, b); }
    }
    forall i | 0 <= i < |caps| ensures CapHolds(caps[i], x) {}
  }

  /** A selection is allowed exactly when it takes each item or leaves it, leaves every excluded one, and holds every
      cap in its own sense. */
  lemma AllowedIff(x: seq<real>, n: nat, mask: Option<seq<bool>>, caps: seq<Cap>)
    requires CapsFit(caps, n) && (mask.Some? ==> |mask.value| == n)
    ensures Allowed(x, n, mask, caps) <==>
      && |x| == n && (forall b :: 0 <= b < n ==> x[b] == 0.0 || (x[b] == 1.0 && (mask.None? || !mask.value[b])))
      && (forall i :: 0 <= i < |caps| && caps[i].sense == "<=" ==> Dot(caps[i].coeffs, x) <= caps[i].bound)
      && (forall i :: 0 <= i < |caps| && caps[i].sense == ">=" ==> Dot(caps[i].coeffs, x) >= caps[i].bound)
  {
    if Allowed(x, n, mask, caps) {
      forall i | 0 <= i < |caps| ensures CapHolds(caps[i], x) {}
      forall b | 0 <= b < n && mask.Some? && mask.value[b] ensures x[b] == 0.0 { assert Excluded(mask, b); }
    }
  }

  /** The plain scenario program has no exclusions and no caps: selecting nothing is always allowed, so with a valid
      `alpha` it always returns a plan. */
  method TwoStageStochasticPlan(g: seq<seq<real>>, cost: seq<real>, price: real, kScenarios: int, alpha: real,
                                solve: Program -> Option<seq<real>>)
    returns (r: Result<Plan, PlanError>)
    requires SolvesExactly(solve)
    ensures InputError(g, cost, None, kScenarios).Some? ==> r == Err(InputError(g, cost, None, kScenarios).value)
    ensures InputError(g, cost, None, kScenarios).None? && !(0.0 < alpha < 1.0) ==> r == Err(BadAlpha)
    ensures InputError(g, cost, None, kScenarios).None? && 0.0 < alpha < 1.0 ==>
              r.Ok? && IsPlan(r.value, ProfitMatrix(g, price, cost, Zeros(|cost|)), |cost|, alpha, None, [])
  {
    var bad := InputError(g, cost, None, kScenarios);
    if bad.Some? { return Err(bad.value); }
    assert Allowed(Zeros(|cost|), |cost|, None, []);
    r := SolveSelection(ProfitMatrix(g, price, cost, Zeros(|cost|)), g, |cost|, alpha, None, [], solve);
  }

  // ---------------------------------------------------------------- the expected value is the scenario average

  function ScenarioTotal(profit: seq<seq<real>>, x: seq<real>): real {
    Sum(|profit|, k => if 0 <= k < |profit| then Dot(profit[k], x) else 0.0)
  }

  function ProfitTerm(profit: seq<seq<real>>, x: seq<real>): (int, int) -> real {
    (k, b) => if 0 <= k < |profit| && 0 <= b < |profit[k]| && b < |x| then profit[k][b] * x[b] else 0.0
  }

  /** Pricing a selection by mean profits is averaging its value over the scenarios. */
  lemma ExpectedValueIsAverage(profit: seq<seq<real>>, n: nat, x: seq<real>)
    requires profit != [] && Rectangular(profit, n) && |x| == n
    ensures Dot(MeanProfit(profit, n), x) * |profit| as real == ScenarioTotal(profit, x)
  {
    TermsByScenario(profit, n, x);
    Sum2Swap(|profit|, n, ProfitTerm(profit, x));
    TermsByItem(profit, n, x);
  }

  lemma TermsByScenario(profit: seq<seq<real>>, n: nat, x: seq<real>)
    requires Rectangular(profit, n) && |x| == n
    ensures Sum2(|profit|, n, ProfitTerm(profit, x)) == ScenarioTotal(profit, x)
  {
    var k, term := |profit|, ProfitTerm(profit, x);
    forall s | 0 <= s < k ensures RowSum(n, term, s) == Dot(profit[s], x) {
      SumExt(n, b => term(s, b), i => if 0 <= i < |profit[s]| && i < |x| then profit[s][i] * x[i] else 0.0);
    }
    SumExt(k, s => RowSum(n, term, s), s => if 0 <= s < |profit| then Dot(profit[s], x) else 0.0);
  }

  /** What one item contributes over all scenarios. */
  function ItemTotals(profit: seq<seq<real>>, x: seq<real>): int -> real {
    b => RowSum(|profit|, Transposed(ProfitTerm(profit, x)), b)
  }

  lemma TermsByItem(profit: seq<seq<real>>, n: nat, x: seq<real>)
    requires profit != [] && Rectangular(profit, n) && |x| == n
    ensures Sum2(n, |profit|, Transposed(ProfitTerm(profit, x))) == |profit| as real * Dot(MeanProfit(profit, n), x)
  {
    var mean := MeanProfit(profit, n);
    SumExt(n, ItemTotals(profit, x), b => RowSum(|profit|, Transposed(ProfitTerm(profit, x)), b));
    SumExt(n, Weighted(mean, x), i => if 0 <= i < |mean| && i < |x| then mean[i] * x[i] else 0.0);
    ItemTotalsScale(profit, n, x, |profit| as real, mean);
  }

  lemma ItemTotalsScale(profit: seq<seq<real>>, n: nat, x: seq<real>, k: real, mean: seq<real>)
    requires profit != [] && Rectangular(profit, n) && |x| == n && k == |profit| as real
      && mean == MeanProfit(profit, n)
    ensures Sum(n, ItemTotals(profit, x)) == k * Sum(n, Weighted(mean, x))
  {
    forall b | 0 <= b < n ensures ItemTotals(profit, x)(b) == k * Weighted(mean, x)(b) {
      ColumnTerm(profit, n, x, b);
    }
    SumScale(n, k, Weighted(mean, x), ItemTotals(profit, x));
  }

  function Weighted(mean: seq<real>, x: seq<real>): int -> real {
    i => if 0 <= i < |mean| && i < |x| then mean[i] * x[i] else 0.0
  }

  lemma ColumnTerm(profit: seq<seq<real>>, n: nat, x: seq<real>, b: int)
    requires profit != [] && Rectangular(profit, n) && |x| == n && 0 <= b < n
    ensures RowSum(|profit|, Transposed(ProfitTerm(profit, x)), b) ==
      |profit| as real * Weighted(MeanProfit(profit, n), x)(b)
  {
    var k := |profit|;
    var column := s => if 0 <= s < |profit| && 0 <= b < |profit[s]| then profit[s][b] else 0.0;
    var t := Transposed(ProfitTerm(profit, x));
    forall s | 0 <= s < k ensures t(b, s) == x[b] * column(s) {}
    SumScale(k, x[b], column, s => t(b, s));
    MeanTimes(ColumnTotal(profit, b), k as real, x[b]);
  }

  lemma MeanTimes(total: real, k: real, v: real)
    requires k > 0.0
    ensures k * ((total / k) * v) == v * total
  {
    assert k * (total / k) == total;
    assert k * ((total / k) * v) == (k * (total / k)) * v;
  }
}
