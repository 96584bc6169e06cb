/**
 * The slack-augmented flow problem: one universal slack node keeps every period feasible, and
 * its price guarantees that it only carries what the real network cannot route.
 */
module SlackNetwork {
  import opened Numbers
  import opened Sums
  import opened Matrices

  /** A minimum-cost flow problem: arc capacities and costs, and node supplies (negative for demand). */
  datatype Problem = Problem(cap: Matrix, cost: Matrix, supply: seq<real>)

  predicate WellShaped(p: Problem) {
    Shape(p.cap, |p.supply|, |p.supply|) && Shape(p.cost, |p.supply|, |p.supply|)
  }

  function Room(c: real): real {
    if c > 0.0 then c else 0.0
  }

  function NetOut(f: Matrix, n: nat, k: int): real {
    Sum(n, v => At(f, k, v)) - Sum(n, v => At(f, v, k))
  }

  ghost predicate InBounds(p: Problem, f: Matrix) {
    Shape(f, |p.supply|, |p.supply|) && forall u, v :: 0.0 <= At(f, u, v) <= Room(At(p.cap, u, v))
  }

  ghost predicate FeasibleFlow(p: Problem, f: Matrix) {
    && WellShaped(p) && InBounds(p, f)
    && forall k :: 0 <= k < |p.supply| ==> NetOut(f, |p.supply|, k) == p.supply[k]
  }

  function CostCell(p: Problem, f: Matrix): (int, int) -> real {
    (u, v) => At(p.cost, u, v) * At(f, u, v)
  }

  function FlowCost(p: Problem, f: Matrix): real {
    Sum2(|p.supply|, |p.supply|, CostCell(p, f))
  }

  /** What the minimum-cost flow solver promises. */
  ghost predicate IsMinCost(p: Problem, f: Matrix) {
    FeasibleFlow(p, f) && forall g :: FeasibleFlow(p, g) ==> FlowCost(p, f) <= FlowCost(p, g)
  }

  // ---------------------------------------------------------------- residual steps

  /** One residual arc: spare capacity of `from -> to`, or flow on `to -> from` that can be undone. */
  datatype Step = Step(from: int, to: int, undo: bool)

  function Row(s: Step): int { if s.undo then s.to else s.from }
  function Col(s: Step): int { if s.undo then s.from else s.to }

  predicate SameCell(s: Step, t: Step) {
    Row(s) == Row(t) && Col(s) == Col(t)
  }

  function Spare(p: Problem, f: Matrix, s: Step): real {
    if s.undo then At(f, Row(s), Col(s)) else At(p.cap, Row(s), Col(s)) - At(f, Row(s), Col(s))
  }

  function StepCost(p: Problem, s: Step): real {
    if s.undo then -At(p.cost, Row(s), Col(s)) else At(p.cost, Row(s), Col(s))
  }

  predicate InRange(s: Step, n: nat) {
    0 <= s.from < n && 0 <= s.to < n
  }

  ghost predicate Usable(p: Problem, f: Matrix, s: Step) {
    InRange(s, |p.supply|) && Spare(p, f, s) > 0.0
  }

  predicate IsWalk(steps: seq<Step>, a: int, b: int) {
    if steps == [] then a == b else steps[0].from == a && IsWalk(steps[1..], steps[0].to, b)
  }

  function WalkCost(p: Problem, steps: seq<Step>): real {
    if steps == [] then 0.0 else StepCost(p, steps[0]) + WalkCost(p, steps[1..])
  }

  predicate DistinctCells(steps: seq<Step>) {
    forall i, j :: 0 <= i < j < |steps| ==> !SameCell(steps[i], steps[j])
  }

  function Push(f: Matrix, n: nat, s: Step, d: real): (g: Matrix)
    requires Shape(f, n, n) && InRange(s, n)
    ensures Shape(g, n, n)
    ensures forall u, v :: At(g, u, v) ==
              if u == Row(s) && v == Col(s) then At(f, u, v) + (if s.undo then -d else d) else At(f, u, v)
  {
    Put(f, Row(s), Col(s), At(f, Row(s), Col(s)) + (if s.undo then -d else d))
  }

  function PushAll(f: Matrix, n: nat, steps: seq<Step>, d: real): (g: Matrix)
    requires Shape(f, n, n) && forall i :: 0 <= i < |steps| ==> InRange(steps[i], n)
    ensures Shape(g, n, n)
    decreases |steps|
  {
    if steps == [] then f else PushAll(Push(f, n, steps[0], d), n, steps[1..], d)
  }

  /** Pushing along one residual arc moves `d` units of net outflow from its end to its start. */
  lemma PushBalance(f: Matrix, n: nat, s: Step, d: real, k: int)
    requires Shape(f, n, n) && InRange(s, n) && 0 <= k < n
    ensures NetOut(Push(f, n, s, d), n, k) ==
      NetOut(f, n, k) + (if k == s.from then d else 0.0) - (if k == s.to then d else 0.0)
  {
    var g, r, c := Push(f, n, s, d), Row(s), Col(s);
    if k == r { SumUpdate(n, c, v => At(f, k, v), v => At(g, k, v)); }
    else { SumExt(n, v => At(f, k, v), v => At(g, k, v)); }
    if k == c { SumUpdate(n, r, v => At(f, v, k), v => At(g, v, k)); }
    else { SumExt(n, v => At(f, v, k), v => At(g, v, k)); }
  }

  lemma {:induction false} PushAllBalance(f: Matrix, n: nat, steps: seq<Step>, d: real, a: int, b: int, k: int)
    requires Shape(f, n, n) && (forall i :: 0 <= i < |steps| ==> InRange(steps[i], n)) && 0 <= k < n
    requires IsWalk(steps, a, b)
    ensures NetOut(PushAll(f, n, steps, d), n, k) ==
      NetOut(f, n, k) + (if k == a then d else 0.0) - (if k == b then d else 0.0)
    decreases |steps|
  {
    if steps != [] {
      PushBalance(f, n, steps[0], d, k);
      PushAllBalance(Push(f, n, steps[0], d), n, steps[1..], d, steps[0].to, b, k);
    }
  }

  lemma PushCost(p: Problem, f: Matrix, s: Step, d: real)
    requires Shape(f, |p.supply|, |p.supply|) && InRange(s, |p.supply|)
    ensures FlowCost(p, Push(f, |p.supply|, s, d)) == FlowCost(p, f) + Scaled(d, StepCost(p, s))
  {
    var n := |p.supply|;
    var g := Push(f, n, s, d);
    Sum2Update(n, n, Row(s), Col(s), CostCell(p, f), CostCell(p, g));
    var c, x := At(p.cost, Row(s), Col(s)), At(f, Row(s), Col(s));
    assert c * (x + d) == c * x + d * c && c * (x - d) == c * x + d * (-c);
  }

  function Scaled(d: real, x: real): real {
    d * x
  }

  lemma Distribute(d: real, x: real, y: real)
    ensures Scaled(d, x + y) == Scaled(d, x) + Scaled(d, y)
  {
  }

  lemma {:induction false} PushAllCost(p: Problem, f: Matrix, steps: seq<Step>, d: real)
    requires Shape(f, |p.supply|, |p.supply|) && forall i :: 0 <= i < |steps| ==> InRange(steps[i], |p.supply|)
    ensures FlowCost(p, PushAll(f, |p.supply|, steps, d)) == FlowCost(p, f) + Scaled(d, WalkCost(p, steps))
    decreases |steps|
  {
    if steps != [] {
      PushCost(p, f, steps[0], d);
      PushAllCost(p, Push(f, |p.supply|, steps[0], d), steps[1..], d);
      Distribute(d, StepCost(p, steps[0]), WalkCost(p, steps[1..]));
    }
  }

  /** When no cell is used twice, pushing no more than each arc can spare stays within capacity. */
  lemma {:induction false} PushAllInBounds(p: Problem, f: Matrix, steps: seq<Step>, d: real)
    requires InBounds(p, f) && d >= 0.0 && DistinctCells(steps)
    requires forall i :: 0 <= i < |steps| ==> InRange(steps[i], |p.supply|) && d <= Spare(p, f, steps[i])
    ensures InBounds(p, PushAll(f, |p.supply|, steps, d))
    decreases |steps|
  {
    if steps != [] {
      var g := Push(f, |p.supply|, steps[0], d);
      forall i | 0 <= i < |steps[1..]| ensures InRange(steps[1..][i], |p.supply|) && d <= Spare(p, g, steps[1..][i]) {
        assert steps[1..][i] == steps[i + 1] && !SameCell(steps[0], steps[i + 1]);
      }
      forall u, v ensures 0.0 <= At(g, u, v) <= Room(At(p.cap, u, v)) {}
      PushAllInBounds(p, g, steps[1..], d);
    }
  }

  /** The most that can be pushed along every step at once. */
  lemma {:induction false} SharedSpare(p: Problem, f: Matrix, steps: seq<Step>) returns (d: real)
    requires forall i :: 0 <= i < |steps| ==> Usable(p, f, steps[i])
    ensures d > 0.0 && forall i :: 0 <= i < |steps| ==> d <= Spare(p, f, steps[i])
  {
    if steps == [] {
      d := 1.0;
    } else {
      var k := |steps| - 1;
      var rest := SharedSpare(p, f, steps[..k]);
      assert forall i :: 0 <= i < k ==> steps[..k][i] == steps[i];
      assert Usable(p, f, steps[k]);
      d := if rest <= Spare(p, f, steps[k]) then rest else Spare(p, f, steps[k]);
    }
  }

  /** A minimum-cost flow leaves no usable residual cycle of negative cost. */
  lemma NoNegativeCycle(p: Problem, f: Matrix, steps: seq<Step>, a: int)
    requires IsMinCost(p, f) && IsWalk(steps, a, a) && DistinctCells(steps)
    requires forall i :: 0 <= i < |steps| ==> Usable(p, f, steps[i])
    ensures WalkCost(p, steps) >= 0.0
  {
    var n := |p.supply|;
    var d := SharedSpare(p, f, steps);
    assert forall i :: 0 <= i < |steps| ==> InRange(steps[i], n);
    var g := PushAll(f, n, steps, d);
    PushAllInBounds(p, f, steps, d);
    forall k | 0 <= k < n ensures NetOut(g, n, k) == p.supply[k] {
      PushAllBalance(f, n, steps, d, a, a, k);
    }
    PushAllCost(p, f, steps, d);
    assert FeasibleFlow(p, g);
    NonNegativeFactor(d, WalkCost(p, steps));
  }

  lemma NonNegativeFactor(d: real, c: real)
    requires d > 0.0 && Scaled(d, c) >= 0.0
    ensures c >= 0.0
  {
  }

  // ---------------------------------------------------------------- walks and simple paths

  /** The node before step `i`; the last node of the walk at `i == |steps|`. */
  function NodeAt(steps: seq<Step>, a: int, i: int): int
    requires 0 <= i <= |steps|
  {
    if i == 0 then a else steps[i - 1].to
  }

  /** No node is visited twice. */
  predicate Simple(steps: seq<Step>, a: int) {
    forall i, j :: 0 <= i < j <= |steps| ==> NodeAt(steps, a, i) != NodeAt(steps, a, j)
  }

  lemma {:induction false} WalkNodes(steps: seq<Step>, a: int, b: int)
    requires IsWalk(steps, a, b)
    ensures forall i :: 0 <= i < |steps| ==> steps[i].from == NodeAt(steps, a, i)
    ensures NodeAt(steps, a, |steps|) == b
    decreases |steps|
  {
    if steps != [] {
      WalkNodes(steps[1..], steps[0].to, b);
      forall i | 0 < i < |steps| ensures steps[i].from == NodeAt(steps, a, i) {
        assert steps[1..][i - 1] == steps[i];
        assert NodeAt(steps[1..], steps[0].to, i - 1) == NodeAt(steps, a, i);
      }
    }
  }

  lemma {:induction false} WalkConcat(s: seq<Step>, t: seq<Step>, a: int, b: int, c: int)
    requires IsWalk(s, a, b) && IsWalk(t, b, c)
    ensures IsWalk(s + t, a, c)
    decreases |s|
  {
    if s == [] {
      assert s + t == t;
    } else {
      WalkConcat(s[1..], t, s[0].to, b, c);
      assert (s + t)[1..] == s[1..] + t;
    }
  }

  lemma {:induction false} WalkSplit(steps: seq<Step>, a: int, b: int, i: nat)
    requires IsWalk(steps, a, b) && i <= |steps|
    ensures IsWalk(steps[..i], a, NodeAt(steps, a, i)) && IsWalk(steps[i..], NodeAt(steps, a, i), b)
    decreases |steps|
  {
    if i == 0 {
      assert steps[0..] == steps;
    } else {
      WalkSplit(steps[1..], steps[0].to, b, i - 1);
      assert steps[..i][1..] == steps[1..][..i - 1] && steps[1..][i - 1..] == steps[i..];
      assert NodeAt(steps[1..], steps[0].to, i - 1) == NodeAt(steps, a, i);
    }
  }

  /** Cutting out the loops of a walk leaves a simple walk made of some of its steps. */
  lemma {:induction false} LoopErasure(steps: seq<Step>, a: int, b: int) returns (simple: seq<Step>)
    requires IsWalk(steps, a, b)
    ensures IsWalk(simple, a, b) && Simple(simple, a) && forall s :: s in simple ==> s in steps
    decreases |steps|
  {
    if Simple(steps, a) {
      simple := steps;
    } else {
      var i, j :| 0 <= i < j <= |steps| && NodeAt(steps, a, i) == NodeAt(steps, a, j);
      WalkSplit(steps, a, b, i);
      WalkSplit(steps, a, b, j);
      WalkConcat(steps[..i], steps[j..], a, NodeAt(steps, a, i), b);
      simple := LoopErasure(steps[..i] + steps[j..], a, b);
    }
  }

  lemma SimpleUsesCellsOnce(steps: seq<Step>, a: int, b: int)
    requires IsWalk(steps, a, b) && Simple(steps, a)
    ensures DistinctCells(steps)
  {
    WalkNodes(steps, a, b);
    forall i, j | 0 <= i < j < |steps| ensures !SameCell(steps[i], steps[j]) {
      assert steps[i].from == NodeAt(steps, a, i) && steps[i].to == NodeAt(steps, a, i + 1);
      assert steps[j].from == NodeAt(steps, a, j) && steps[j].to == NodeAt(steps, a, j + 1);
    }
  }

  // ---------------------------------------------------------------- the price ceiling

  function ArcWeight(cap: Matrix, cost: Matrix): (int, int) -> real {
    (u, v) => if At(cap, u, v) > 0.0 then Abs(At(cost, u, v)) else 0.0
  }

  /** The total magnitude of the costs of all real arcs. */
  function CostCeiling(cap: Matrix, cost: Matrix, n: nat): real {
    Sum2(n, n, ArcWeight(cap, cost))
  }

  function WeightAlong(w: Matrix, steps: seq<Step>): real {
    if steps == [] then 0.0 else At(w, Row(steps[0]), Col(steps[0])) + WeightAlong(w, steps[1..])
  }

  function MatrixSum(w: Matrix, n: nat): real {
    Sum2(n, n, (u, v) => At(w, u, v))
  }

  lemma {:induction false} SameWeights(w: Matrix, w': Matrix, steps: seq<Step>)
    requires forall i :: 0 <= i < |steps| ==>
      At(w, Row(steps[i]), Col(steps[i])) == At(w', Row(steps[i]), Col(steps[i]))
    ensures WeightAlong(w, steps) == WeightAlong(w', steps)
  {
    if steps != [] {
      assert forall i :: 0 <= i < |steps[1..]| ==> steps[1..][i] == steps[i + 1];
      SameWeights(w, w', steps[1..]);
    }
  }

  /** A walk using each cell at most once weighs no more than the whole matrix. */
  lemma {:induction false} WalkWeighsAtMostAll(w: Matrix, n: nat, steps: seq<Step>)
    requires Shape(w, n, n) && DistinctCells(steps) && (forall u, v :: At(w, u, v) >= 0.0)
    requires forall i :: 0 <= i < |steps| ==> InRange(steps[i], n)
    ensures WeightAlong(w, steps) <= MatrixSum(w, n)
    decreases |steps|
  {
    if steps == [] {
      var zero := (u: int, v: int) => 0.0;
      Sum2Const(n, n, 0.0, zero);
      Sum2Le(n, n, zero, (u, v) => At(w, u, v));
    } else {
      var s := steps[0];
      var rest := Put(w, Row(s), Col(s), 0.0);
      Sum2Update(n, n, Row(s), Col(s), (u, v) => At(w, u, v), (u, v) => At(rest, u, v));
      forall i | 0 <= i < |steps[1..]|
        ensures InRange(steps[1..][i], n)
        ensures At(w, Row(steps[1..][i]), Col(steps[1..][i])) == At(rest, Row(steps[1..][i]), Col(steps[1..][i]))
      {
        assert steps[1..][i] == steps[i + 1] && !SameCell(steps[0], steps[i + 1]);
      }
      SameWeights(w, rest, steps[1..]);
      WalkWeighsAtMostAll(rest, n, steps[1..]);
    }
  }

  function WeightMatrix(cap: Matrix, cost: Matrix, n: nat): (w: Matrix)
    ensures Shape(w, n, n)
    ensures forall u, v :: At(w, u, v) == if 0 <= u < n && 0 <= v < n then ArcWeight(cap, cost)(u, v) else 0.0
  {
    seq(n, u => seq(n, v => ArcWeight(cap, cost)(u, v)))
  }

  lemma {:induction false} CostAtMostWeight(p: Problem, w: Matrix, f: Matrix, steps: seq<Step>)
    requires InBounds(p, f) && forall i :: 0 <= i < |steps| ==> Usable(p, f, steps[i])
    requires forall i :: 0 <= i < |steps| ==>
               At(w, Row(steps[i]), Col(steps[i])) == ArcWeight(p.cap, p.cost)(Row(steps[i]), Col(steps[i]))
    ensures WalkCost(p, steps) <= WeightAlong(w, steps)
  {
    if steps != [] {
      assert forall i :: 0 <= i < |steps[1..]| ==> steps[1..][i] == steps[i + 1];
      CostAtMostWeight(p, w, f, steps[1..]);
      assert Usable(p, f, steps[0]);
      assert At(p.cap, Row(steps[0]), Col(steps[0])) > 0.0;
    }
  }

  // ---------------------------------------------------------------- the augmented problem

  const SLACK_CAPACITY: real := 1000000.0
  const SLACK_COST: real := 10000.0

  function Magnitudes(supply: seq<real>): real {
    Sum(|supply|, i => if 0 <= i < |supply| then Abs(supply[i]) else 0.0)
  }

  function TotalSupply(supply: seq<real>): real {
    Sum(|supply|, i => if 0 <= i < |supply| then supply[i] else 0.0)
  }

  function SlackCapacity(supply: seq<real>): real {
    Larger(SLACK_CAPACITY, Magnitudes(supply) + 1.0)
  }

  function SlackCost(cap: Matrix, cost: Matrix, n: nat): real {
    Larger(SLACK_COST, CostCeiling(cap, cost, n) + 1.0)
  }

  function ExtendedCell(m: Matrix, n: nat, slack: real, u: int, v: int): real {
    if u == n && v == n then 0.0 else if u == n || v == n then slack else At(m, u, v)
  }

  /** `q` is the problem `p` with one slack node linked to and from every node. */
  ghost predicate IsAugmented(p: Problem, q: Problem) {
    var n := |p.supply|;
    && WellShaped(p) && WellShaped(q)
    && q.supply == p.supply + [-TotalSupply(p.supply)]
    && (forall u, v :: 0 <= u <= n && 0 <= v <= n ==>
          At(q.cap, u, v) == ExtendedCell(p.cap, n, SlackCapacity(p.supply), u, v))
    && (forall u, v :: 0 <= u <= n && 0 <= v <= n ==>
          At(q.cost, u, v) == ExtendedCell(p.cost, n, SlackCost(p.cap, p.cost, n), u, v))
  }

  /** A usable residual walk through real nodes only. */
  ghost predicate RealWalk(p: Problem, q: Problem, f: Matrix, steps: seq<Step>, a: int, b: int) {
    && IsWalk(steps, a, b)
    && forall i :: 0 <= i < |steps| ==> InRange(steps[i], |p.supply|) && Usable(q, f, steps[i])
  }

  /** A simple residual path of real arcs costs at most the ceiling, whatever the signs of the arc costs. */
  lemma SimplePathAtMostCeiling(p: Problem, q: Problem, f: Matrix, steps: seq<Step>, a: int, b: int)
    requires IsAugmented(p, q) && InBounds(q, f)
    requires RealWalk(p, q, f, steps, a, b) && Simple(steps, a)
    ensures WalkCost(q, steps) <= CostCeiling(p.cap, p.cost, |p.supply|)
  {
    var n := |p.supply|;
    var w := WeightMatrix(p.cap, p.cost, n);
    SimpleUsesCellsOnce(steps, a, b);
    CostAtMostWeight(q, w, f, steps);
    WalkWeighsAtMostAll(w, n, steps);
    Sum2Ext(n, n, (u, v) => At(w, u, v), ArcWeight(p.cap, p.cost));
  }

  lemma {:induction false} WalkCostConcat(p: Problem, s: seq<Step>, t: seq<Step>)
    ensures WalkCost(p, s + t) == WalkCost(p, s) + WalkCost(p, t)
    decreases |s|
  {
    if s == [] {
      assert s + t == t;
    } else {
      WalkCostConcat(p, s[1..], t);
      assert (s + t)[1..] == s[1..] + t;
    }
  }

  /** The way back from `b` to `a` that undoes one unit through the slack node. */
  function ThroughSlack(n: int, a: int, b: int): seq<Step> {
    [Step(b, n, true), Step(n, a, true)]
  }

  lemma ThroughSlackFacts(p: Problem, q: Problem, f: Matrix, a: int, b: int)
    requires IsAugmented(p, q) && 0 <= a < |p.supply| && 0 <= b < |p.supply|
    requires At(f, a, |p.supply|) > 0.0 && At(f, |p.supply|, b) > 0.0
    ensures IsWalk(ThroughSlack(|p.supply|, a, b), b, a) && DistinctCells(ThroughSlack(|p.supply|, a, b))
    ensures forall i :: 0 <= i < 2 ==> Usable(q, f, ThroughSlack(|p.supply|, a, b)[i])
    ensures WalkCost(q, ThroughSlack(|p.supply|, a, b)) == -2.0 * SlackCost(p.cap, p.cost, |p.supply|)
  {
    var n := |p.supply|;
    var t := ThroughSlack(n, a, b);
    assert IsWalk(t[1..], n, a) by { assert t[1..] == [Step(n, a, true)] && t[1..][1..] == []; }
    assert WalkCost(q, t[1..]) == StepCost(q, t[1]) by { assert t[1..][1..] == []; }
    assert t[1..] == [t[1]];
  }

  lemma CombinedCells(steps: seq<Step>, n: nat, a: int, b: int)
    requires DistinctCells(steps) && (forall i :: 0 <= i < |steps| ==> InRange(steps[i], n))
    requires DistinctCells(ThroughSlack(n, a, b))
    ensures DistinctCells(steps + ThroughSlack(n, a, b))
  {
  }

  /** Rerouting a unit off slack onto a real residual walk is a residual cycle of negative cost. */
  lemma CheaperDetour(p: Problem, q: Problem, f: Matrix, a: int, b: int, steps: seq<Step>) returns (cycle: seq<Step>)
    requires IsAugmented(p, q) && InBounds(q, f) && 0 <= a < |p.supply| && 0 <= b < |p.supply|
    requires At(f, a, |p.supply|) > 0.0 && At(f, |p.supply|, b) > 0.0
    requires RealWalk(p, q, f, steps, a, b)
    ensures IsWalk(cycle, a, a) && DistinctCells(cycle) && forall i :: 0 <= i < |cycle| ==> Usable(q, f, cycle[i])
    ensures WalkCost(q, cycle) <= -2.0 - CostCeiling(p.cap, p.cost, |p.supply|) < 0.0
  {
    var n := |p.supply|;
    var simple := LoopErasure(steps, a, b);
    forall i | 0 <= i < |simple| ensures InRange(simple[i], n) && Usable(q, f, simple[i]) { assert simple[i] in steps; }
    SimplePathAtMostCeiling(p, q, f, simple, a, b);
    CeilingNonNegative(p.cap, p.cost, n);
    SimpleUsesCellsOnce(simple, a, b);
    ThroughSlackFacts(p, q, f, a, b);
    cycle := simple + ThroughSlack(n, a, b);
    CombinedCells(simple, n, a, b);
    WalkConcat(simple, ThroughSlack(n, a, b), a, b, a);
    WalkCostConcat(q, simple, ThroughSlack(n, a, b));
  }

  lemma CeilingNonNegative(cap: Matrix, cost: Matrix, n: nat)
    ensures CostCeiling(cap, cost, n) >= 0.0
  {
    var zero := (u: int, v: int) => 0.0;
    Sum2Const(n, n, 0.0, zero);
    Sum2Le(n, n, zero, ArcWeight(cap, cost));
  }

  /** Slack only carries what is unroutable: in a minimum-cost flow of the augmented network, when some flow goes from
      node `a` into slack and some flow goes from slack to node `b`, the two nodes differ and no residual walk of real
      arcs leads from `a` to `b`. */
  lemma SlackCarriesOnlyUnroutable(p: Problem, q: Problem, f: Matrix, a: int, b: int)
    requires IsAugmented(p, q) && IsMinCost(q, f) && 0 <= a < |p.supply| && 0 <= b < |p.supply|
    requires At(f, a, |p.supply|) > 0.0 && At(f, |p.supply|, b) > 0.0
    ensures a != b && forall steps :: !RealWalk(p, q, f, steps, a, b)
  {
    forall steps ensures !RealWalk(p, q, f, steps, a, b) {
      if RealWalk(p, q, f, steps, a, b) {
        var cycle := CheaperDetour(p, q, f, a, b, steps);
        NoNegativeCycle(q, f, cycle, a);
      }
    }
    assert !RealWalk(p, q, f, [], a, b);
  }
}
