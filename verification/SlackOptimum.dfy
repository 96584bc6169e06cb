/**
 * The global form of "slack carries only the unroutable remainder": no feasible flow of the augmented network uses less
 * slack than a minimum-cost one.
 */
module SlackOptimum {
  import opened Numbers
  import opened Sums
  import opened Matrices
  import opened SlackNetwork
  import M = MaxFlow
  import T = Twin

  /** What enters slack, and what leaves it. */
  function IntoSlack(f: Matrix, n: nat): real {
    Sum(n, u => At(f, u, n))
  }

  function OutOfSlack(f: Matrix, n: nat): real {
    Sum(n, v => At(f, n, v))
  }

  // ---------------------------------------------------------------- what the slack users can reach

  ghost predicate Feeds(p: Problem, q: Problem, f: Matrix, a: int, steps: seq<Step>, v: int) {
    0 <= a < |p.supply| && At(f, a, |p.supply|) > 0.0 && RealWalk(p, q, f, steps, a, v)
  }

  /** Some node that sends flow into slack still has a usable walk of real arcs to `v`. */
  ghost predicate Reached(p: Problem, q: Problem, f: Matrix, v: int) {
    exists a, steps :: Feeds(p, q, f, a, steps, v)
  }

  ghost function ReachedNodes(p: Problem, q: Problem, f: Matrix): (r: set<int>)
    ensures forall v :: v in r <==> 0 <= v < |p.supply| && Reached(p, q, f, v)
  {
    set v | 0 <= v < |p.supply| && Reached(p, q, f, v)
  }

  lemma UserIsReached(p: Problem, q: Problem, f: Matrix, a: int)
    requires 0 <= a < |p.supply| && At(f, a, |p.supply|) > 0.0
    ensures a in ReachedNodes(p, q, f)
  {
    assert Feeds(p, q, f, a, [], a);
  }

  /** A usable real arc out of a reached node reaches its end. */
  lemma ReachOn(p: Problem, q: Problem, f: Matrix, s: Step)
    requires InRange(s, |p.supply|) && Usable(q, f, s) && s.from in ReachedNodes(p, q, f)
    ensures s.to in ReachedNodes(p, q, f)
  {
    var a, steps :| Feeds(p, q, f, a, steps, s.from);
    var longer := steps + [s];
    assert IsWalk([s], s.from, s.to) by { assert [s][1..] == []; }
    WalkConcat(steps, [s], a, s.from, s.to);
    assert Feeds(p, q, f, a, longer, s.to);
  }

  /** An arc that leaves the reached nodes is full, and one that enters them is empty. */
  lemma BoundaryIsTight(p: Problem, q: Problem, f: Matrix, g: Matrix, u: int, v: int)
    requires IsAugmented(p, q) && InBounds(q, f) && InBounds(q, g)
    requires u in ReachedNodes(p, q, f) && v !in ReachedNodes(p, q, f) && 0 <= v < |p.supply|
    ensures At(g, u, v) <= At(f, u, v) && At(f, v, u) == 0.0
  {
    if At(q.cap, u, v) - At(f, u, v) > 0.0 { ReachOn(p, q, f, Step(u, v, false)); }
    if At(f, v, u) > 0.0 { ReachOn(p, q, f, Step(u, v, true)); }
  }

  /** A minimum-cost flow sends no slack to a reached node. */
  lemma ReachedDrawNothing(p: Problem, q: Problem, f: Matrix, v: int)
    requires IsAugmented(p, q) && IsMinCost(q, f) && v in ReachedNodes(p, q, f)
    ensures At(f, |p.supply|, v) == 0.0
  {
    var a, steps :| Feeds(p, q, f, a, steps, v);
    if At(f, |p.supply|, v) > 0.0 { SlackCarriesOnlyUnroutable(p, q, f, a, v); }
  }

  // ---------------------------------------------------------------- balance over a set of nodes

  function NetFlow(f: Matrix): (int, int) -> real {
    (u, v) => At(f, u, v) - At(f, v, u)
  }

  function SupplyOf(supply: seq<real>, side: set<int>): real {
    Sum(|supply|, k => if 0 <= k < |supply| && k in side then supply[k] else 0.0)
  }

  /** What a set of nodes supplies is what crosses its boundary, in any feasible flow. */
  lemma SupplyCrosses(q: Problem, f: Matrix, side: set<int>)
    requires FeasibleFlow(q, f)
    ensures Sum2(|q.supply|, |q.supply|, M.Across(NetFlow(f), side)) == SupplyOf(q.supply, side)
  {
    var m, net := |q.supply|, NetFlow(f);
    var rows := (u: int, v: int) => if u in side then net(u, v) else 0.0;
    forall u | 0 <= u < m ensures RowSum(m, rows, u) == if u in side then q.supply[u] else 0.0 {
      if u in side {
        RowSumExt(m, rows, net, u);
        RowIsNetOut(f, m, u);
      } else {
        SumZero(m, v => rows(u, v));
      }
    }
    SumExt(m, u => RowSum(m, rows, u), k => if 0 <= k < |q.supply| && k in side then q.supply[k] else 0.0);
    M.WithinCancels(m, net, side);
    Sum2Add(m, m, M.Across(net, side), M.Within(net, side), rows);
  }

  lemma RowIsNetOut(f: Matrix, m: nat, u: int)
    ensures RowSum(m, NetFlow(f), u) == NetOut(f, m, u)
  {
    var net := NetFlow(f);
    SumSub(m, v => At(f, u, v), v => At(f, v, u), v => net(u, v));
  }

  // ---------------------------------------------------------------- least slack

  function SlackColumn(f: Matrix, n: int): (int, int) -> real {
    (u, v) => if v == n && 0 <= u < n then At(f, u, n) else 0.0
  }

  lemma ColumnRow(f: Matrix, n: nat, u: int)
    requires 0 <= u <= n
    ensures RowSum(n + 1, SlackColumn(f, n), u) == if u < n then At(f, u, n) else 0.0
  {
    var c := SlackColumn(f, n);
    var row := v => c(u, v);
    assert Sum(n + 1, row) == Sum(n, row) + row(n);
    SumZero(n, row);
    SumExt(n + 1, row, v => c(u, v));
  }

  lemma ColumnTotal(f: Matrix, n: nat)
    ensures Sum2(n + 1, n + 1, SlackColumn(f, n)) == IntoSlack(f, n)
  {
    var c := SlackColumn(f, n);
    var rows, column := u => RowSum(n + 1, c, u), u => At(f, u, n);
    forall u | 0 <= u <= n ensures rows(u) == if u < n then column(u) else 0.0 { ColumnRow(f, n, u); }
    assert Sum(n + 1, rows) == Sum(n, rows) + rows(n);
    SumExt(n, rows, column);
    SumExt(n + 1, rows, u => RowSum(n + 1, c, u));
  }

  /** Across the boundary of the reached nodes, whatever another flow carries less of over real arcs it sends into
      slack. */
  lemma CrossingTerm(p: Problem, q: Problem, f: Matrix, g: Matrix, u: int, v: int)
    requires IsAugmented(p, q) && IsMinCost(q, f) && FeasibleFlow(q, g) && 0 <= u <= |p.supply| && 0 <= v <= |p.supply|
    ensures var n, side := |p.supply|, ReachedNodes(p, q, f);
      M.Across(NetFlow(g), side)(u, v) + SlackColumn(f, n)(u, v)
      <= M.Across(NetFlow(f), side)(u, v) + SlackColumn(g, n)(u, v)
  {
    var n, side := |p.supply|, ReachedNodes(p, q, f);
    if u in side && v !in side {
      if v < n { BoundaryIsTight(p, q, f, g, u, v); } else { ReachedDrawNothing(p, q, f, u); }
    } else if v == n && u < n && At(f, u, n) > 0.0 {
      UserIsReached(p, q, f, u);
    }
  }

  /** No feasible flow sends less into slack, or draws less from it, than a minimum-cost flow: slack carries exactly the
      remainder that no routing can avoid. */
  lemma SlackIsLeast(p: Problem, q: Problem, f: Matrix, g: Matrix)
    requires IsAugmented(p, q) && IsMinCost(q, f) && FeasibleFlow(q, g)
    ensures IntoSlack(f, |p.supply|) <= IntoSlack(g, |p.supply|)
    ensures OutOfSlack(f, |p.supply|) <= OutOfSlack(g, |p.supply|)
  {
    var n, side := |p.supply|, ReachedNodes(p, q, f);
    var left := (u: int, v: int) => M.Across(NetFlow(g), side)(u, v) + SlackColumn(f, n)(u, v);
    var right := (u: int, v: int) => M.Across(NetFlow(f), side)(u, v) + SlackColumn(g, n)(u, v);
    forall u, v | 0 <= u < n + 1 && 0 <= v < n + 1 ensures left(u, v) <= right(u, v) {
      CrossingTerm(p, q, f, g, u, v);
    }
    Sum2Le(n + 1, n + 1, left, right);
    Sum2Add(n + 1, n + 1, M.Across(NetFlow(g), side), SlackColumn(f, n), left);
    Sum2Add(n + 1, n + 1, M.Across(NetFlow(f), side), SlackColumn(g, n), right);
    SupplyCrosses(q, f, side);
    SupplyCrosses(q, g, side);
    ColumnTotal(f, n);
    ColumnTotal(g, n);
    SlackBalance(p, q, f);
    SlackBalance(p, q, g);
  }

  /** What leaves slack beyond what enters it is fixed by the supplies. */
  lemma SlackBalance(p: Problem, q: Problem, f: Matrix)
    requires IsAugmented(p, q) && FeasibleFlow(q, f)
    ensures OutOfSlack(f, |p.supply|) - IntoSlack(f, |p.supply|) == -TotalSupply(p.supply)
  {
    var n := |p.supply|;
    assert NetOut(f, n + 1, n) == q.supply[n];
    assert Sum(n + 1, v => At(f, n, v)) == Sum(n, v => At(f, n, v)) + At(f, n, n);
    assert Sum(n + 1, v => At(f, v, n)) == Sum(n, v => At(f, v, n)) + At(f, n, n);
  }

  // ---------------------------------------------------------------- the slack capacity

  /** Sending everything through slack moves, each way, at most the total magnitude of the supplies. */
  lemma AllThroughSlackWithin(supply: seq<real>)
    ensures IntoSlack(T.AllThroughSlack(supply), |supply|) <= Magnitudes(supply)
    ensures OutOfSlack(T.AllThroughSlack(supply), |supply|) <= Magnitudes(supply)
  {
    var n, f := |supply|, T.AllThroughSlack(supply);
    SumLe(n, u => At(f, u, n), i => if 0 <= i < |supply| then Abs(supply[i]) else 0.0);
    SumLe(n, v => At(f, n, v), i => if 0 <= i < |supply| then Abs(supply[i]) else 0.0);
  }

  /** One slack arc carries no more than all of them together. */
  lemma SlackArcWithinTotal(p: Problem, q: Problem, f: Matrix, k: int)
    requires IsAugmented(p, q) && FeasibleFlow(q, f) && 0 <= k < |p.supply|
    ensures At(f, k, |p.supply|) <= IntoSlack(f, |p.supply|) && At(f, |p.supply|, k) <= OutOfSlack(f, |p.supply|)
  {
    var n := |p.supply|;
    SumAtLeastTerm(n, k, u => At(f, u, n));
    SumAtLeastTerm(n, k, v => At(f, n, v));
  }

  /** The capacity of the slack arcs never binds: in every minimum-cost flow each of them carries strictly less. */
  lemma SlackNeverBinds(p: Problem, q: Problem, f: Matrix, k: int)
    requires IsAugmented(p, q) && IsMinCost(q, f) && 0 <= k < |p.supply|
    ensures At(f, k, |p.supply|) < SlackCapacity(p.supply) && At(f, |p.supply|, k) < SlackCapacity(p.supply)
  {
    T.AugmentedIsFeasible(p, q);
    SlackIsLeast(p, q, f, T.AllThroughSlack(p.supply));
    AllThroughSlackWithin(p.supply);
    SlackArcWithinTotal(p, q, f, k);
  }
}
