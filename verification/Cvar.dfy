/**
 * Empirical CVaR of an equal-weight loss sample: the sorted prefix-sum formula, and the
 * minimisation over a real threshold that defines the quantity.
 */
module Cvar {

  // ---------------------------------------------------------------- the definition

  function Excess(loss: real, eta: real): real {
    if loss > eta then loss - eta else 0.0
  }

  function TotalExcess(losses: seq<real>, eta: real): real {
    if losses == [] then 0.0 else Excess(losses[0], eta) + TotalExcess(losses[1..], eta)
  }

  function Weight(alpha: real, k: nat): real
    requires alpha < 1.0 && k > 0
  {
    1.0 / ((1.0 - alpha) * k as real)
  }

  /** The Rockafellar-Uryasev objective at threshold `eta`. */
  function Objective(losses: seq<real>, alpha: real, eta: real): real
    requires alpha < 1.0 && losses != []
  {
    Charged(eta, Weight(alpha, |losses|), TotalExcess(losses, eta))
  }

  function Charged(eta: real, weight: real, excess: real): real {
    eta + weight * excess
  }

  /** `v` is the CVaR: the least objective over every real threshold, and attained. */
  ghost predicate IsCvar(losses: seq<real>, alpha: real, v: real)
    requires alpha < 1.0 && losses != []
  {
    && (forall eta :: v <= Objective(losses, alpha, eta))
    && (exists eta :: v == Objective(losses, alpha, eta))
  }

  // ---------------------------------------------------------------- the sorted formula

  function Insert(x: real, s: seq<real>): (r: seq<real>)
    ensures |r| == |s| + 1
  {
    if s == [] || x <= s[0] then [x] + s else [s[0]] + Insert(x, s[1..])
  }

  function Sort(s: seq<real>): (r: seq<real>)
    ensures |r| == |s|
  {
    if s == [] then [] else Insert(s[0], Sort(s[1..]))
  }

  function Total(s: seq<real>): real {
    if s == [] then 0.0 else s[0] + Total(s[1..])
  }

  function Repeated(count: int, x: real): real {
    count as real * x
  }

  /** What the program computes at breakpoint `i` of the sorted sample. */
  function TailExcess(ordered: seq<real>, i: nat): real
    requires i < |ordered|
  {
    (Total(ordered) - Total(ordered[..i + 1])) - Repeated(|ordered| - (i + 1), ordered[i])
  }

  function Least(s: seq<real>): (m: real)
    requires s != []
    ensures m in s && forall x :: x in s ==> m <= x
  {
    if |s| == 1 then s[0] else
    var rest := Least(s[1..]);
    assert forall x :: x in s ==> x == s[0] || x in s[1..];
    if s[0] < rest then s[0] else rest
  }

  function Breakpoints(ordered: seq<real>, alpha: real): (r: seq<real>)
    requires alpha < 1.0 && ordered != []
    ensures |r| == |ordered|
  {
    seq(|ordered|, i requires 0 <= i < |ordered| =>
      Charged(ordered[i], Weight(alpha, |ordered|), TailExcess(ordered, i)))
  }

  function EmpiricalCvar(losses: seq<real>, alpha: real): real
    requires alpha < 1.0 && losses != []
  {
    Least(Breakpoints(Sort(losses), alpha))
  }

  // ---------------------------------------------------------------- sorting changes nothing

  predicate Ascending(s: seq<real>) {
    forall i, j :: 0 <= i <= j < |s| ==> s[i] <= s[j]
  }

  lemma {:induction false} InsertSorts(x: real, s: seq<real>, eta: real)
    requires Ascending(s)
    ensures Ascending(Insert(x, s)) && TotalExcess(Insert(x, s), eta) == Excess(x, eta) + TotalExcess(s, eta)
    ensures forall y :: y in Insert(x, s) <==> y == x || y in s
  {
    if s == [] || x <= s[0] {
      assert ([x] + s)[1..] == s;
    } else {
      InsertSorts(x, s[1..], eta);
      var r := [s[0]] + Insert(x, s[1..]);
      assert r[1..] == Insert(x, s[1..]) && s == [s[0]] + s[1..];
      forall j | 0 < j < |r| ensures s[0] <= r[j] {
        assert r[j] in Insert(x, s[1..]);
      }
    }
  }

  lemma {:induction false} SortSorts(s: seq<real>, eta: real)
    ensures Ascending(Sort(s)) && TotalExcess(Sort(s), eta) == TotalExcess(s, eta)
    ensures forall y :: y in Sort(s) <==> y in s
  {
    if s != [] {
      SortSorts(s[1..], eta);
      InsertSorts(s[0], Sort(s[1..]), eta);
      assert s == [s[0]] + s[1..];
    }
  }

  // ---------------------------------------------------------------- the objective is affine between breakpoints

  lemma {:induction false} TotalExcessAbove(s: seq<real>, x: real)
    requires forall i :: 0 <= i < |s| ==> x <= s[i]
    ensures TotalExcess(s, x) == Total(s) - |s| as real * x
  {
    if s != [] { TotalExcessAbove(s[1..], x); }
  }

  /** At a threshold with `c` sample losses below it and the rest above it. */
  lemma {:induction false} TotalExcessAffine(s: seq<real>, c: nat, x: real)
    requires c <= |s|
    requires (forall i :: 0 <= i < c ==> s[i] <= x) && (forall i :: c <= i < |s| ==> x <= s[i])
    ensures TotalExcess(s, x) == Total(s[c..]) - Repeated(|s| - c, x)
  {
    if c == 0 {
      assert s[0..] == s;
      TotalExcessAbove(s, x);
    } else {
      assert s[1..][c - 1..] == s[c..];
      TotalExcessAffine(s[1..], c - 1, x);
    }
  }

  lemma {:induction false} TotalSplit(s: seq<real>, c: nat)
    requires c <= |s|
    ensures Total(s) == Total(s[..c]) + Total(s[c..])
  {
    if c == 0 {
      assert s[0..] == s;
    } else {
      assert s[1..][..c - 1] == s[..c][1..] && s[1..][c - 1..] == s[c..];
      TotalSplit(s[1..], c - 1);
    }
  }

  /** The prefix-sum tail formula is the sum of the positive excesses at its breakpoint, ties included. */
  lemma TailExcessIsTotal(ordered: seq<real>, i: nat)
    requires Ascending(ordered) && i < |ordered|
    ensures TailExcess(ordered, i) == TotalExcess(ordered, ordered[i])
  {
    var x, c := ordered[i], i + 1;
    forall k | 0 <= k < c ensures ordered[k] <= x {}
    forall k | c <= k < |ordered| ensures x <= ordered[k] {}
    TailAt(ordered, c, x);
  }

  lemma TailAt(s: seq<real>, c: nat, x: real)
    requires c <= |s|
    requires (forall i :: 0 <= i < c ==> s[i] <= x) && (forall i :: c <= i < |s| ==> x <= s[i])
    ensures TotalExcess(s, x) == (Total(s) - Total(s[..c])) - Repeated(|s| - c, x)
  {
    TotalSplit(s, c);
    TotalExcessAffine(s, c, x);
  }

  /** How many losses of a sorted sample lie at or below `x`. */
  function CountBelow(s: seq<real>, x: real): (c: nat)
    ensures c <= |s| && forall i :: 0 <= i < c ==> s[i] <= x
    ensures c < |s| ==> s[c] > x
  {
    if s == [] || s[0] > x then 0 else CountBelow(s[1..], x) + 1
  }

  lemma AffineStep(w: real, total: real, m: real, x: real, y: real)
    ensures (y + w * (total - m * y)) - (x + w * (total - m * x)) == (1.0 - w * m) * (y - x)
  {
    assert w * (total - m * y) - w * (total - m * x) == w * (m * (x - y));
    assert w * (m * (x - y)) == (w * m) * (x - y);
  }

  /** The slope of the objective where every loss lies above the threshold is negative. */
  lemma FullSlope(alpha: real, k: nat)
    requires 0.0 < alpha < 1.0 && k > 0
    ensures 1.0 - Weight(alpha, k) * k as real <= 0.0 && Weight(alpha, k) > 0.0
  {
    var d, kk := 1.0 - alpha, k as real;
    assert d * kk > 0.0;
    var w := Weight(alpha, k);
    assert w * (d * kk) == 1.0;
    assert w > 0.0;
    assert (w * kk) * d == 1.0;
    if w * kk < 1.0 { assert (w * kk) * d < d; }
  }

  /** The objective at any threshold with `c` losses below it and the rest above it. */
  lemma ObjectiveOnLine(ordered: seq<real>, alpha: real, c: nat, x: real, w: real, total: real, m: real)
    requires alpha < 1.0 && ordered != [] && c <= |ordered|
    requires (forall i :: 0 <= i < c ==> ordered[i] <= x) && (forall i :: c <= i < |ordered| ==> x <= ordered[i])
    requires w == Weight(alpha, |ordered|) && total == Total(ordered[c..]) && m == (|ordered| - c) as real
    ensures Objective(ordered, alpha, x) == x + w * (total - m * x)
  {
    TotalExcessAffine(ordered, c, x);
    ChargedOnLine(x, w, total, m, TotalExcess(ordered, x), Repeated(|ordered| - c, x));
  }

  lemma ChargedOnLine(x: real, w: real, total: real, m: real, excess: real, repeated: real)
    requires repeated == m * x && excess == total - repeated
    ensures Charged(x, w, excess) == x + w * (total - m * x)
  {
  }

  /** Moving from `x` to `y` along one line does not raise the objective when the slope opposes the move. */
  lemma MoveAlongLine(ordered: seq<real>, alpha: real, c: nat, x: real, y: real)
    requires alpha < 1.0 && ordered != [] && c <= |ordered|
    requires forall i :: 0 <= i < c ==> ordered[i] <= x && ordered[i] <= y
    requires forall i :: c <= i < |ordered| ==> x <= ordered[i] && y <= ordered[i]
    requires var slope := 1.0 - Weight(alpha, |ordered|) * (|ordered| - c) as real;
             (x <= y && slope <= 0.0) || (y <= x && slope >= 0.0)
    ensures Objective(ordered, alpha, y) <= Objective(ordered, alpha, x)
  {
    var w, total, m := Weight(alpha, |ordered|), Total(ordered[c..]), (|ordered| - c) as real;
    ObjectiveOnLine(ordered, alpha, c, x, w, total, m);
    ObjectiveOnLine(ordered, alpha, c, y, w, total, m);
    AffineStep(w, total, m, x, y);
    OpposedProduct(1.0 - w * m, y - x);
  }

  lemma OpposedProduct(a: real, b: real)
    requires (b >= 0.0 && a <= 0.0) || (b <= 0.0 && a >= 0.0)
    ensures a * b <= 0.0
  {
  }

  /** Every threshold is matched or beaten by some sample loss. */
  lemma SomeBreakpointIsNoWorse(ordered: seq<real>, alpha: real, eta: real) returns (i: nat)
    requires 0.0 < alpha < 1.0 && ordered != [] && Ascending(ordered)
    ensures i < |ordered| && Objective(ordered, alpha, ordered[i]) <= Objective(ordered, alpha, eta)
  {
    var c, k := CountBelow(ordered, eta), |ordered|;
    FullSlope(alpha, k);
    var slope := 1.0 - Weight(alpha, k) * (k - c) as real;
    if c == k {
      assert slope == 1.0 by { assert Weight(alpha, k) * 0.0 == 0.0; }
    }
    if c == 0 || (c < k && slope <= 0.0) {
      i := c;
    } else {
      i := c - 1;
    }
    MoveAlongLine(ordered, alpha, c, eta, ordered[i]);
  }

  /** The objective does not depend on the order of the sample. */
  lemma ObjectiveOfSorted(losses: seq<real>, alpha: real, eta: real)
    requires alpha < 1.0 && losses != []
    ensures Objective(Sort(losses), alpha, eta) == Objective(losses, alpha, eta)
  {
    SortSorts(losses, eta);
  }

  lemma BreakpointValue(losses: seq<real>, alpha: real, i: nat)
    requires 0.0 < alpha < 1.0 && losses != [] && i < |losses|
    ensures Breakpoints(Sort(losses), alpha)[i] == Objective(losses, alpha, Sort(losses)[i])
    ensures Sort(losses)[i] in losses
  {
    var ordered := Sort(losses);
    var x := ordered[i];
    SortSorts(losses, x);
    TailExcessIsTotal(ordered, i);
    assert x in ordered;
  }

  lemma LeastBreakpointIsLeast(losses: seq<real>, alpha: real, eta: real)
    requires 0.0 < alpha < 1.0 && losses != []
    ensures EmpiricalCvar(losses, alpha) <= Objective(losses, alpha, eta)
  {
    var ordered := Sort(losses);
    SortSorts(losses, eta);
    var i := SomeBreakpointIsNoWorse(ordered, alpha, eta);
    ObjectiveOfSorted(losses, alpha, eta);
    ObjectiveOfSorted(losses, alpha, ordered[i]);
    BreakpointValue(losses, alpha, i);
    assert Breakpoints(ordered, alpha)[i] in Breakpoints(ordered, alpha);
  }

  /** The sorted prefix-sum formula computes exactly the minimum over all real thresholds, attained at a sample loss. */
  lemma EmpiricalCvarIsMinimum(losses: seq<real>, alpha: real)
    requires 0.0 < alpha < 1.0 && losses != []
    ensures IsCvar(losses, alpha, EmpiricalCvar(losses, alpha))
    ensures exists eta :: eta in losses && EmpiricalCvar(losses, alpha) == Objective(losses, alpha, eta)
  {
    var points := Breakpoints(Sort(losses), alpha);
    var at :| 0 <= at < |points| && points[at] == EmpiricalCvar(losses, alpha);
    BreakpointValue(losses, alpha, at);
    forall eta ensures EmpiricalCvar(losses, alpha) <= Objective(losses, alpha, eta) {
      LeastBreakpointIsLeast(losses, alpha, eta);
    }
  }

  // ---------------------------------------------------------------- between the mean and the worst loss

  lemma {:induction false} ExcessAtLeast(s: seq<real>, eta: real)
    ensures TotalExcess(s, eta) >= 0.0 && TotalExcess(s, eta) >= Total(s) - Repeated(|s|, eta)
  {
    if s != [] {
      ExcessAtLeast(s[1..], eta);
      assert Repeated(|s|, eta) == eta + Repeated(|s| - 1, eta);
    }
  }

  lemma {:induction false} ExcessAtLeastOne(s: seq<real>, x: real, eta: real)
    requires x in s
    ensures TotalExcess(s, eta) >= Excess(x, eta)
  {
    ExcessAtLeast(s[1..], eta);
    if x != s[0] { ExcessAtLeastOne(s[1..], x, eta); }
  }

  lemma {:induction false} NoExcess(s: seq<real>, eta: real)
    requires forall x :: x in s ==> x <= eta
    ensures TotalExcess(s, eta) == 0.0
  {
    if s != [] {
      assert s[0] in s && forall x :: x in s[1..] ==> x in s;
      NoExcess(s[1..], eta);
    }
  }

  lemma ChargedAtLeast(eta: real, w: real, excess: real, k: real, total: real, share: real, v: real)
    requires k > 0.0 && w * k >= 1.0 && excess >= 0.0 && excess >= total - share && share == k * eta
    requires v == Charged(eta, w, excess)
    ensures total <= k * v
  {
    assert k * v == k * eta + (w * k) * excess;
    assert (w * k - 1.0) * excess >= 0.0;
  }

  /** The CVaR is never below the mean loss. */
  lemma MeanAtMostCvar(losses: seq<real>, alpha: real, v: real)
    requires 0.0 < alpha < 1.0 && losses != [] && IsCvar(losses, alpha, v)
    ensures Total(losses) <= |losses| as real * v
  {
    var eta :| v == Objective(losses, alpha, eta);
    ObjectiveAtLeastMean(losses, alpha, eta, |losses| as real, v);
  }

  /** And never above the worst one. */
  lemma CvarAtMostWorst(losses: seq<real>, alpha: real, v: real, worst: real)
    requires 0.0 < alpha < 1.0 && losses != [] && IsCvar(losses, alpha, v) && forall x :: x in losses ==> x <= worst
    ensures v <= worst
  {
    ObjectiveAtWorst(losses, alpha, worst);
    assert v <= Objective(losses, alpha, worst);
  }

  lemma ObjectiveAtLeastMean(losses: seq<real>, alpha: real, eta: real, k: real, v: real)
    requires 0.0 < alpha < 1.0 && losses != [] && k == |losses| as real && v == Objective(losses, alpha, eta)
    ensures Total(losses) <= k * v
  {
    FullSlope(alpha, |losses|);
    ExcessAtLeast(losses, eta);
    ChargedAtLeast(
      eta, Weight(alpha, |losses|), TotalExcess(losses, eta), k, Total(losses), Repeated(|losses|, eta), v);
  }

  lemma ObjectiveAtWorst(losses: seq<real>, alpha: real, worst: real)
    requires 0.0 < alpha < 1.0 && losses != [] && forall x :: x in losses ==> x <= worst
    ensures Objective(losses, alpha, worst) == worst
  {
    NoExcess(losses, worst);
    assert Weight(alpha, |losses|) * 0.0 == 0.0;
  }

  lemma WeightAtLeastOne(w: real, d: real)
    requires 0.0 < d <= 1.0 && w * d == 1.0
    ensures w >= 1.0
  {
    assert w == 1.0 / d;
  }

  lemma ChargedAtLeastWorst(eta: real, w: real, excess: real, worst: real)
    requires w >= 1.0 && excess >= 0.0 && excess >= worst - eta
    ensures Charged(eta, w, excess) >= worst
  {
    assert (w - 1.0) * excess >= 0.0;
  }

  /** Where the tail holds no more than one scenario, the CVaR is the worst loss. */
  lemma CvarIsWorstLoss(losses: seq<real>, alpha: real, v: real, worst: real)
    requires 0.0 < alpha < 1.0 && losses != [] && IsCvar(losses, alpha, v)
    requires worst in losses && forall x :: x in losses ==> x <= worst
    requires (1.0 - alpha) * |losses| as real <= 1.0
    ensures v == worst
  {
    CvarAtMostWorst(losses, alpha, v, worst);
    var eta :| v == Objective(losses, alpha, eta);
    ObjectiveAtLeastWorst(losses, alpha, eta, worst);
  }

  lemma ObjectiveAtLeastWorst(losses: seq<real>, alpha: real, eta: real, worst: real)
    requires 0.0 < alpha < 1.0 && losses != [] && worst in losses && (1.0 - alpha) * |losses| as real <= 1.0
    ensures Objective(losses, alpha, eta) >= worst
  {
    ExcessAtLeast(losses, eta);
    ExcessAtLeastOne(losses, worst, eta);
    WeightMeaning(alpha, |losses|);
    WeightAtLeastOne(Weight(alpha, |losses|), (1.0 - alpha) * |losses| as real);
    ChargedAtLeastWorst(eta, Weight(alpha, |losses|), TotalExcess(losses, eta), worst);
  }

  /** The weight spreads one over the share of the scenarios that lies in the tail. */
  lemma WeightMeaning(alpha: real, k: nat)
    requires 0.0 < alpha < 1.0 && k > 0
    ensures (1.0 - alpha) * k as real > 0.0 && Weight(alpha, k) * ((1.0 - alpha) * k as real) == 1.0
  {
  }
}
