/**
 * Maximum flow and minimum cut by Edmonds-Karp augmentation.
 *
 * Capacities are reals. The program treats a residual capacity as usable only when it
 * exceeds a small tolerance; the tolerance is kept, so the optimality statements carry it.
 */
module MaxFlow {
  import opened Outcomes
  import opened Sums
  import opened Matrices

  /** Residual capacity at or below this is treated as exhausted. */
  const TOLERANCE: real := 0.000000000001

  // ---------------------------------------------------------------- specification

  ghost predicate Capacities(cap: Matrix, n: nat) {
    Shape(cap, n, n) && forall u, v :: At(cap, u, v) >= 0.0
  }

  /** A feasible flow: within capacity, conserved away from source and sink, of the given value. */
  ghost predicate IsFlow(cap: Matrix, n: nat, s: int, t: int, flow: Matrix, value: real) {
    && Shape(flow, n, n)
    && (forall u, v :: 0.0 <= At(flow, u, v) <= At(cap, u, v))
    && (forall k :: 0 <= k < n && k != s && k != t ==> Outflow(flow, n, k) == Inflow(flow, n, k))
    && Outflow(flow, n, s) - Inflow(flow, n, s) == value
  }

  function Outflow(flow: Matrix, n: nat, k: int): real {
    Sum(n, v => At(flow, k, v))
  }

  function Inflow(flow: Matrix, n: nat, k: int): real {
    Sum(n, v => At(flow, v, k))
  }

  ghost predicate IsCut(n: nat, s: int, t: int, side: set<int>) {
    s in side && t !in side && forall u :: u in side ==> 0 <= u < n
  }

  function Crossing(cap: Matrix, side: set<int>): (int, int) -> real {
    (u, v) => if u in side && v !in side then At(cap, u, v) else 0.0
  }

  /** The total capacity of the arcs leaving `side`. */
  function CutCapacity(cap: Matrix, n: nat, side: set<int>): real {
    Sum2(n, n, Crossing(cap, side))
  }

  function Times(k: int, q: real): real {
    k as real * q
  }

  ghost predicate IsMultiple(x: real, q: real) {
    exists k: int :: x == Times(k, q)
  }

  /** Every entry is a whole number of quanta `q`, counted from its base. */
  ghost predicate Quantized(a: Matrix, base: (int, int) -> real, q: real) {
    forall u, v :: IsMultiple(At(a, u, v) - base(u, v), q)
  }

  /** The capacities share a quantum above the tolerance. An arc may be counted from a base of its own when it is dearer
      than all that the source can send, so that it never limits a flow. */
  ghost predicate OnGrid(cap: Matrix, n: nat, s: int, base: (int, int) -> real, q: real) {
    && q > TOLERANCE && Quantized(cap, base, q)
    && forall u, v :: base(u, v) != 0.0 ==> At(cap, u, v) > CutCapacity(cap, n, {s}) + TOLERANCE
  }

  // ---------------------------------------------------------------- net flow across a cut

  ghost predicate IsNet(n: nat, s: int, t: int, net: (int, int) -> real, value: real) {
    && (forall u, v :: 0 <= u < n && 0 <= v < n ==> net(u, v) + net(v, u) == 0.0)
    && (forall k :: 0 <= k < n && k != s && k != t ==> RowSum(n, net, k) == 0.0)
    && RowSum(n, net, s) == value
  }

  function Across(net: (int, int) -> real, side: set<int>): (int, int) -> real {
    (u, v) => if u in side && v !in side then net(u, v) else 0.0
  }

  function Within(net: (int, int) -> real, side: set<int>): (int, int) -> real {
    (u, v) => if u in side && v in side then net(u, v) else 0.0
  }

  lemma WithinCancels(n: nat, net: (int, int) -> real, side: set<int>)
    requires forall u, v :: 0 <= u < n && 0 <= v < n ==> net(u, v) + net(v, u) == 0.0
    ensures Sum2(n, n, Within(net, side)) == 0.0
  {
    var g := Within(net, side);
    Sum2Swap(n, n, g);
    var zero := (u: int, v: int) => 0.0;
    Sum2Add(n, n, g, Transposed(g), zero);
    Sum2Const(n, n, 0.0, zero);
  }

  /** Whatever leaves the source crosses every cut: the net flow across any cut is the flow value. */
  lemma NetAcrossCut(n: nat, s: int, t: int, net: (int, int) -> real, value: real, side: set<int>)
    requires 0 <= s < n && 0 <= t < n && s != t
    requires IsNet(n, s, t, net, value) && IsCut(n, s, t, side)
    ensures Sum2(n, n, Across(net, side)) == value
  {
    var rows := (u: int, v: int) => if u in side then net(u, v) else 0.0;
    forall u | 0 <= u < n && u != s ensures RowSum(n, rows, u) == 0.0 {
      if u in side { RowSumExt(n, rows, net, u); } else { SumZero(n, v => rows(u, v)); }
    }
    RowSumExt(n, rows, net, s);
    var zero := (i: int) => 0.0;
    SumUpdate(n, s, zero, i => RowSum(n, rows, i));
    SumZero(n, zero);
    assert Sum2(n, n, rows) == value;
    WithinCancels(n, net, side);
    Sum2Add(n, n, Across(net, side), Within(net, side), rows);
  }

  function Net(cap: Matrix, res: Matrix): (int, int) -> real {
    (u, v) => At(cap, u, v) - At(res, u, v)
  }

  function FlowNet(flow: Matrix): (int, int) -> real {
    (u, v) => At(flow, u, v) - At(flow, v, u)
  }

  lemma FlowIsNet(cap: Matrix, n: nat, s: int, t: int, flow: Matrix, value: real)
    requires 0 <= s < n && 0 <= t < n
    requires IsFlow(cap, n, s, t, flow, value)
    ensures IsNet(n, s, t, FlowNet(flow), value)
  {
    forall k | 0 <= k < n ensures RowSum(n, FlowNet(flow), k) == Outflow(flow, n, k) - Inflow(flow, n, k) {
      var net := FlowNet(flow);
      SumSub(n, v => At(flow, k, v), v => At(flow, v, k), v => net(k, v));
    }
  }

  /** Weak duality: no flow exceeds the capacity of any cut. */
  lemma FlowAtMostCut(cap: Matrix, n: nat, s: int, t: int, flow: Matrix, value: real, side: set<int>)
    requires 0 <= s < n && 0 <= t < n && s != t
    requires IsFlow(cap, n, s, t, flow, value) && IsCut(n, s, t, side)
    ensures value <= CutCapacity(cap, n, side)
  {
    FlowIsNet(cap, n, s, t, flow, value);
    NetAcrossCut(n, s, t, FlowNet(flow), value, side);
    Sum2Le(n, n, Across(FlowNet(flow), side), Crossing(cap, side));
  }

  // ---------------------------------------------------------------- the residual state

  /** What every augmentation keeps, on the residual matrix the program updates in place. */
  ghost predicate ResidualState(cap: Matrix, n: nat, s: int, t: int, res: Matrix, value: real) {
    && Capacities(cap, n) && Shape(res, n, n) && 0 <= s < n && 0 <= t < n && s != t
    && value >= 0.0
    && IsNet(n, s, t, Net(cap, res), value)
    && (forall u, v :: At(res, u, v) >= 0.0)
    && (forall u, v :: At(cap, u, v) - At(res, u, v) <= value)
  }

  lemma ValueAtMostCut(cap: Matrix, n: nat, s: int, t: int, res: Matrix, value: real, side: set<int>)
    requires ResidualState(cap, n, s, t, res, value) && IsCut(n, s, t, side)
    ensures value <= CutCapacity(cap, n, side)
  {
    NetAcrossCut(n, s, t, Net(cap, res), value, side);
    Sum2Le(n, n, Across(Net(cap, res), side), Crossing(cap, side));
  }

  /** A cut whose crossing arcs are all exhausted up to `eps` is full up to `n * n * eps`. */
  lemma SaturatedCut(cap: Matrix, n: nat, s: int, t: int, res: Matrix, value: real, side: set<int>, eps: real)
    requires ResidualState(cap, n, s, t, res, value) && IsCut(n, s, t, side) && eps >= 0.0
    requires forall u, v :: u in side && 0 <= v < n && v !in side ==> At(res, u, v) <= eps
    ensures CutCapacity(cap, n, side) <= value + n as real * (n as real * eps)
  {
    NetAcrossCut(n, s, t, Net(cap, res), value, side);
    var slack := (u: int, v: int) => eps;
    var both := (u: int, v: int) => Across(Net(cap, res), side)(u, v) + slack(u, v);
    Sum2Add(n, n, Across(Net(cap, res), side), slack, both);
    Sum2Const(n, n, eps, slack);
    Sum2Le(n, n, Crossing(cap, side), both);
  }

  lemma MultipleSub(x: real, y: real, q: real)
    requires IsMultiple(x, q) && IsMultiple(y, q)
    ensures IsMultiple(x - y, q) && IsMultiple(x + y, q)
  {
    var i: int :| x == Times(i, q);
    var j: int :| y == Times(j, q);
    assert x - y == Times(i - j, q);
    assert x + y == Times(i + j, q);
  }

  lemma PositiveTimes(k: int, q: real)
    requires q > 0.0
    ensures k >= 1 ==> Times(k, q) >= q
    ensures k <= -1 ==> Times(k, q) < 0.0
  {
  }

  /** A multiple of a quantum above the tolerance is either exhausted exactly or usable. */
  lemma MultipleAboveTolerance(x: real, q: real)
    requires IsMultiple(x, q) && q > TOLERANCE && 0.0 <= x <= TOLERANCE
    ensures x == 0.0
  {
    var k: int :| x == Times(k, q);
    PositiveTimes(k, q);
  }

  // ---------------------------------------------------------------- breadth-first search

  /** `parent` describes a tree rooted at `s` along usable residual arcs; `rank` is discovery order. */
  ghost predicate SearchTree(res: Matrix, n: nat, s: int, parent: seq<int>, rank: seq<int>) {
    && |parent| == n && |rank| == n && 0 <= s < n && parent[s] == s
    && forall v :: 0 <= v < n ==> Linked(res, n, s, parent, rank, v)
  }

  ghost predicate Linked(res: Matrix, n: nat, s: int, parent: seq<int>, rank: seq<int>, v: int)
    requires |parent| == n && |rank| == n && 0 <= v < n
  {
    && -1 <= parent[v] < n && rank[v] >= 0
    && (parent[v] != -1 && v != s ==>
          parent[parent[v]] != -1 && rank[parent[v]] < rank[v] && At(res, parent[v], v) > TOLERANCE)
  }

  ghost predicate Expanded(res: Matrix, n: nat, parent: seq<int>, u: int, upto: int)
    requires |parent| == n
  {
    forall v :: 0 <= v < upto && v < n && At(res, u, v) > TOLERANCE ==> parent[v] != -1
  }

  /** The search state: a tree whose queued nodes are all discovered. */
  ghost predicate Frontier(res: Matrix, n: nat, s: int, parent: seq<int>, rank: seq<int>, clock: int, q: seq<int>) {
    && SearchTree(res, n, s, parent, rank) && clock >= 0
    && (forall v :: 0 <= v < n && parent[v] != -1 ==> rank[v] < clock)
    && (forall i :: 0 <= i < |q| ==> 0 <= q[i] < n && parent[q[i]] != -1)
  }

  lemma Discover(res: Matrix, n: nat, s: int, parent: seq<int>, rank: seq<int>, clock: int, q: seq<int>, u: int, v: int)
    requires Frontier(res, n, s, parent, rank, clock, q)
    requires 0 <= u < n && parent[u] != -1 && 0 <= v < n && parent[v] == -1 && At(res, u, v) > TOLERANCE
    ensures Frontier(res, n, s, parent[v := u], rank[v := clock], clock + 1, q + [v])
    ensures forall w, k :: Expanded(res, n, parent, w, k) ==> Expanded(res, n, parent[v := u], w, k)
  {
    var parent', rank' := parent[v := u], rank[v := clock];
    forall w | 0 <= w < n ensures Linked(res, n, s, parent', rank', w) {
      assert Linked(res, n, s, parent, rank, w);
    }
  }

  /** The inner loop of the search: give every usable neighbour of `u` not yet discovered the parent `u`. */
  method ExpandNode(residual: array2<real>, n: nat, s: int, parent0: seq<int>, ghost rank0: seq<int>,
                    ghost clock0: int, q0: seq<int>, u: int)
    returns (parent: seq<int>, q: seq<int>, ghost rank: seq<int>, ghost clock: int)
    requires residual.Length0 == residual.Length1 == n
    requires Frontier(View(residual), n, s, parent0, rank0, clock0, q0)
    requires 0 <= u < n && parent0[u] != -1
    ensures Frontier(View(residual), n, s, parent, rank, clock, q)
    ensures Expanded(View(residual), n, parent, u, n) && Extends(parent0, parent, q0, q)
    ensures forall w :: Expanded(View(residual), n, parent0, w, n) ==> Expanded(View(residual), n, parent, w, n)
  {
    ghost var res := View(residual);
    parent, q, rank, clock := parent0, q0, rank0, clock0;
    for v := 0 to n
      invariant Frontier(res, n, s, parent, rank, clock, q)
      invariant Expanded(res, n, parent, u, v) && Extends(parent0, parent, q0, q)
      invariant forall w :: Expanded(res, n, parent0, w, n) ==> Expanded(res, n, parent, w, n)
      invariant parent[u] != -1
    {
      if parent[v] == -1 && residual[u, v] > TOLERANCE {
        Discover(res, n, s, parent, rank, clock, q, u, v);
        ExtendsMore(parent0, parent, q0, q, u, v);
        parent := parent[v := u];
        rank := rank[v := clock];
        clock := clock + 1;
        q := q + [v];
      }
    }
  }

  /** More nodes discovered, each of them queued behind what was queued already. */
  ghost predicate Extends(parent0: seq<int>, parent: seq<int>, q0: seq<int>, q: seq<int>) {
    && |parent0| == |parent| && q0 <= q
    && (forall w :: 0 <= w < |parent| && parent0[w] != -1 ==> parent[w] != -1)
    && (forall w :: 0 <= w < |parent| && parent[w] != -1 ==> parent0[w] != -1 || w in q[|q0|..])
    && (q == q0 || exists w :: 0 <= w < |parent| && parent0[w] == -1 && parent[w] != -1)
  }

  lemma ExtendsMore(parent0: seq<int>, parent: seq<int>, q0: seq<int>, q: seq<int>, u: int, v: int)
    requires Extends(parent0, parent, q0, q) && 0 <= v < |parent| && parent[v] == -1 && u != -1
    ensures Extends(parent0, parent[v := u], q0, q + [v])
  {
    assert (q + [v])[|q0|..] == q[|q0|..] + [v];
    assert parent0[v] == -1 && parent[v := u][v] != -1;
  }

  ghost function Undiscovered(parent: seq<int>): set<int> {
    set v | 0 <= v < |parent| && parent[v] == -1
  }

  ghost predicate AllExpanded(res: Matrix, n: nat, parent: seq<int>, q: seq<int>)
    requires |parent| == n
  {
    forall u :: 0 <= u < n && parent[u] != -1 && u !in q ==> Expanded(res, n, parent, u, n)
  }

  /** Expanding the head of the queue leaves every discovered node expanded or queued, and makes progress. */
  lemma ExpansionStep(res: Matrix, n: nat, before: seq<int>, after: seq<int>, u: int, rest: seq<int>, q: seq<int>)
    requires |before| == |after| == n && AllExpanded(res, n, before, [u] + rest)
    requires Expanded(res, n, after, u, n) && Extends(before, after, rest, q)
    requires forall w :: Expanded(res, n, before, w, n) ==> Expanded(res, n, after, w, n)
    ensures AllExpanded(res, n, after, q)
    ensures Undiscovered(after) <= Undiscovered(before)
    ensures q == rest || Undiscovered(after) < Undiscovered(before)
  {
    assert q == rest + q[|rest|..];
    forall w | 0 <= w < n && after[w] != -1 && w !in q ensures Expanded(res, n, after, w, n) {
      assert w !in q[|rest|..];
      if w != u {
        assert w !in [u] + rest;
        assert Expanded(res, n, before, w, n);
      }
    }
    if q != rest {
      var w :| 0 <= w < n && before[w] == -1 && after[w] != -1;
      assert w in Undiscovered(before) && w !in Undiscovered(after);
    }
  }

  method Search(residual: array2<real>, n: nat, s: int, t: int) returns (parent: seq<int>, ghost rank: seq<int>)
    requires residual.Length0 == residual.Length1 == n
    requires 0 <= s < n && 0 <= t < n
    ensures SearchTree(View(residual), n, s, parent, rank)
    ensures parent[t] == -1 ==> AllExpanded(View(residual), n, parent, [])
  {
    ghost var res := View(residual);
    parent := seq(n, i => -1)[s := s];
    rank := seq(n, i => 0);
    ghost var clock := 1;
    var q := [s];
    while q != [] && parent[t] == -1
      invariant Frontier(res, n, s, parent, rank, clock, q)
      invariant AllExpanded(res, n, parent, q)
      decreases Undiscovered(parent), |q|
    {
      var u := q[0];
      ghost var before, rest := parent, q[1..];
      assert q == [u] + rest;
      parent, q, rank, clock := ExpandNode(residual, n, s, parent, rank, clock, q[1..], u);
      ExpansionStep(res, n, before, parent, u, rest, q);
    }
  }

  // ---------------------------------------------------------------- augmentation

  /** The walk from the sink back to the root along `parent`; ranks fall, so no node repeats. */
  ghost predicate TreePath(parent: seq<int>, rank: seq<int>, s: int, t: int, path: seq<int>) {
    && |parent| == |rank| && |path| >= 1 && path[0] == t
    && (forall i :: 0 <= i < |path| ==> 0 <= path[i] < |parent| && parent[path[i]] != -1)
    && (forall i :: 0 <= i < |path| - 1 ==> Climbs(parent, s, path, i))
    && (forall i, j :: 0 <= i < j < |path| ==> rank[path[i]] > rank[path[j]])
  }

  ghost predicate Climbs(parent: seq<int>, s: int, path: seq<int>, i: int)
    requires 0 <= i < |path| - 1 && 0 <= path[i] < |parent|
  {
    path[i] != s && path[i + 1] == parent[path[i]]
  }

  /** The `i`-th arc of the path, counted from the sink, is `x -> y`. */
  predicate ArcAt(path: seq<int>, i: int, x: int, y: int) {
    0 <= i < |path| - 1 && path[i] == y && path[i + 1] == x
  }

  /** `b` is the least residual capacity on the arcs of the path. */
  ghost predicate LeastOnPath(res: Matrix, path: seq<int>, b: real) {
    && (forall i, x, y :: ArcAt(path, i, x, y) ==> b <= At(res, x, y))
    && (exists i, x, y :: ArcAt(path, i, x, y) && b == At(res, x, y))
  }

  lemma LongerPath(res: Matrix, n: nat, s: int, t: int, parent: seq<int>, rank: seq<int>, path: seq<int>, b: real)
    requires SearchTree(res, n, s, parent, rank) && TreePath(parent, rank, s, t, path)
    requires |path| >= 2 ==> LeastOnPath(res, path, b)
    requires path[|path| - 1] != s
    ensures var v := path[|path| - 1]; var u := parent[v]; var c := At(res, u, v);
      && c > TOLERANCE && TreePath(parent, rank, s, t, path + [u]) && 0 <= u < n && rank[u] < rank[v]
      && LeastOnPath(res, path + [u], if |path| >= 2 && b <= c then b else c)
  {
    var k := |path| - 1;
    var v := path[k];
    assert Linked(res, n, s, parent, rank, v);
    assert Linked(res, n, s, parent, rank, parent[v]);
    var u, longer := parent[v], path + [parent[v]];
    forall i | 0 <= i < |longer| - 1 ensures Climbs(parent, s, longer, i) {
      if i < k { assert Climbs(parent, s, path, i); }
    }
    forall i, x, y ensures ArcAt(longer, i, x, y) <==> ArcAt(path, i, x, y) || (i == k && x == u && y == v) {}
    if |path| >= 2 {
      var i, x, y :| ArcAt(path, i, x, y) && b == At(res, x, y);
      assert ArcAt(longer, i, x, y);
    }
    assert ArcAt(longer, k, u, v);
  }

  /** The least residual capacity on the tree path, and that path. */
  method Bottleneck(residual: array2<real>, n: nat, parent: seq<int>, ghost rank: seq<int>, s: int, t: int)
    returns (bottleneck: real, ghost path: seq<int>)
    requires residual.Length0 == residual.Length1 == n
    requires 0 <= s < n && 0 <= t < n && s != t
    requires SearchTree(View(residual), n, s, parent, rank) && parent[t] != -1
    ensures TreePath(parent, rank, s, t, path) && path[|path| - 1] == s
    ensures LeastOnPath(View(residual), path, bottleneck) && bottleneck > TOLERANCE
  {
    ghost var res := View(residual);
    path := [t];
    LongerPath(res, n, s, t, parent, rank, path, 0.0);
    // The program starts from infinity; the path has at least one arc, so its first arc serves as the start.
    assert Linked(res, n, s, parent, rank, t);
    bottleneck := residual[parent[t], t];
    var v := parent[t];
    path := path + [v];
    while v != s
      invariant TreePath(parent, rank, s, t, path) && |path| >= 2 && v == path[|path| - 1]
      invariant LeastOnPath(res, path, bottleneck) && bottleneck > TOLERANCE
      invariant Linked(res, n, s, parent, rank, v)
      decreases rank[v]
    {
      LongerPath(res, n, s, t, parent, rank, path, bottleneck);
      var u := parent[v];
      assert Linked(res, n, s, parent, rank, u);
      if residual[u, v] < bottleneck { bottleneck := residual[u, v]; }
      path := path + [u];
      v := u;
    }
  }

  /** Pushing `b` along the first `k` arcs of a path lowers exactly those arcs, and each at most once. */
  function Lowered(path: seq<int>, k: nat, b: real, x: int, y: int): real {
    if exists i :: 0 <= i < k && ArcAt(path, i, x, y) then b else 0.0
  }

  /** A node balance `x` after `b` has been added at `from` and taken away at `to`. */
  function Shifted(x: real, w: int, from: int, to: int, b: real): real {
    x + (if w == from then b else 0.0) - (if w == to then b else 0.0)
  }

  /** The state after the first `k` arcs of the path have been pushed. */
  ghost predicate Pushed(cap: Matrix, n: nat, t: int, res0: Matrix, res: Matrix, path: seq<int>, k: nat, b: real) {
    && k < |path| && 0 <= path[k] < n && Shape(res0, n, n) && Shape(res, n, n)
    && (forall u, v :: 0 <= u < n && 0 <= v < n ==> Net(cap, res)(u, v) + Net(cap, res)(v, u) == 0.0)
    && (forall w :: 0 <= w < n ==>
      RowSum(n, Net(cap, res), w) == Shifted(RowSum(n, Net(cap, res0), w), w, path[k], t, b))
    && (forall x, y :: At(res, x, y) >= At(res0, x, y) - Lowered(path, k, b, x, y))
  }

  function PushedCell(x: real, p: int, q: int, u: int, v: int, b: real): real {
    x + (if p == v && q == u then b else 0.0) - (if p == u && q == v then b else 0.0)
  }

  /** The residual matrix after `b` has been pushed along the arc `u -> v`. */
  function PushedArc(res: Matrix, u: nat, v: nat, b: real): (r: Matrix)
    requires u < |res| && v < |res| && v < |res[u]| && u < |res[v]|
    ensures |r| == |res| && forall k :: 0 <= k < |res| ==> |r[k]| == |res[k]|
    ensures forall p, q :: u != v ==> At(r, p, q) == PushedCell(At(res, p, q), p, q, u, v, b)
  {
    var once := Put(res, u, v, At(res, u, v) - b);
    Put(once, v, u, At(once, v, u) + b)
  }

  lemma PushArcBalance(cap: Matrix, n: nat, res: Matrix, u: nat, v: nat, b: real, w: int)
    requires Shape(res, n, n) && u < n && v < n && u != v && 0 <= w < n
    ensures RowSum(n, Net(cap, PushedArc(res, u, v, b)), w) == Shifted(RowSum(n, Net(cap, res), w), w, u, v, b)
  {
    var net0, net := Net(cap, res), Net(cap, PushedArc(res, u, v, b));
    if w == u { SumUpdate(n, v, j => net0(w, j), j => net(w, j)); }
    else if w == v { SumUpdate(n, u, j => net0(w, j), j => net(w, j)); }
    else { RowSumExt(n, net0, net, w); }
  }

  lemma PushArcLowers(res0: Matrix, n: nat, res: Matrix, path: seq<int>, k: nat, b: real, x: int, y: int)
    requires Shape(res, n, n) && k + 1 < |path| && 0 <= path[k] < n && 0 <= path[k + 1] < n && b >= 0.0
    requires forall i, j :: 0 <= i < j < |path| ==> path[i] != path[j]
    requires At(res, x, y) >= At(res0, x, y) - Lowered(path, k, b, x, y)
    ensures At(PushedArc(res, path[k + 1], path[k], b), x, y) >= At(res0, x, y) - Lowered(path, k + 1, b, x, y)
  {
    if x == path[k + 1] && y == path[k] {
      assert ArcAt(path, k, x, y);
    }
  }

  lemma PushArc(cap: Matrix, n: nat, t: int, res0: Matrix, res: Matrix, path: seq<int>, k: nat, b: real)
    requires Pushed(cap, n, t, res0, res, path, k, b) && b >= 0.0 && k + 1 < |path|
    requires forall i, j :: 0 <= i < j < |path| ==> path[i] != path[j]
    requires 0 <= path[k + 1] < n
    ensures Pushed(cap, n, t, res0, PushedArc(res, path[k + 1], path[k], b), path, k + 1, b)
  {
    var u, v := path[k + 1], path[k];
    forall w | 0 <= w < n
      ensures RowSum(n, Net(cap, PushedArc(res, u, v, b)), w) == Shifted(RowSum(n, Net(cap, res0), w), w, u, t, b)
    {
      PushArcBalance(cap, n, res, u, v, b, w);
    }
    forall x, y ensures Net(cap, PushedArc(res, u, v, b))(x, y) + Net(cap, PushedArc(res, u, v, b))(y, x)
        == Net(cap, res)(x, y) + Net(cap, res)(y, x) {}
    forall x, y ensures At(PushedArc(res, u, v, b), x, y) >= At(res0, x, y) - Lowered(path, k + 1, b, x, y) {
      PushArcLowers(res0, n, res, path, k, b, x, y);
    }
  }

  lemma PushKeepsMultiples(res: Matrix, base: (int, int) -> real, q: real, u: int, v: int, b: real)
    requires Quantized(res, base, q) && IsMultiple(b, q) && u != v
    requires 0 <= u < |res| && 0 <= v < |res[u]| && 0 <= v < |res| && 0 <= u < |res[v]|
    ensures Quantized(PushedArc(res, u, v, b), base, q)
  {
    var pushed := PushedArc(res, u, v, b);
    MultipleSub(At(res, u, v) - base(u, v), b, q);
    MultipleSub(At(res, v, u) - base(v, u), b, q);
    forall x, y ensures IsMultiple(At(pushed, x, y) - base(x, y), q) {
      assert At(pushed, x, y) == PushedCell(At(res, x, y), x, y, u, v, b);
      assert IsMultiple(At(res, x, y) - base(x, y), q);
      PushedCellOffset(At(res, x, y), x, y, u, v, b, base(x, y));
    }
  }

  lemma PushedCellOffset(x: real, p: int, q: int, u: int, v: int, b: real, base: real)
    requires u != v
    ensures PushedCell(x, p, q, u, v, b) - base ==
      if p == v && q == u then (x - base) + b else if p == u && q == v then (x - base) - b else x - base
  {
  }

  ghost predicate KeepsQuanta(cap: Matrix, n: nat, s: int, res: Matrix) {
    forall base, q :: OnGrid(cap, n, s, base, q) ==> Quantized(res, base, q)
  }

  /** `b` is a whole number of quanta, whatever grid the capacities are on. */
  ghost predicate OnEveryGrid(cap: Matrix, n: nat, s: int, b: real) {
    forall base, q :: OnGrid(cap, n, s, base, q) ==> IsMultiple(b, q)
  }

  lemma PushKeepsQuanta(cap: Matrix, n: nat, s: int, res: Matrix, u: int, v: int, b: real)
    requires KeepsQuanta(cap, n, s, res) && OnEveryGrid(cap, n, s, b) && u != v
    requires 0 <= u < |res| && 0 <= v < |res[u]| && 0 <= v < |res| && 0 <= u < |res[v]|
    ensures KeepsQuanta(cap, n, s, PushedArc(res, u, v, b))
  {
    forall base, q | OnGrid(cap, n, s, base, q) ensures Quantized(PushedArc(res, u, v, b), base, q) {
      PushKeepsMultiples(res, base, q, u, v, b);
    }
  }

  lemma PathDistinct(parent: seq<int>, rank: seq<int>, s: int, t: int, path: seq<int>)
    requires TreePath(parent, rank, s, t, path)
    ensures forall i, j :: 0 <= i < j < |path| ==> path[i] != path[j]
  {
  }

  /** What the source can still send over one arc is at most what it can still send in all. */
  lemma SourceArcLeft(cap: Matrix, n: nat, s: int, t: int, res: Matrix, value: real, w: int)
    requires ResidualState(cap, n, s, t, res, value) && 0 <= w < n && w != s
    ensures At(res, s, w) <= CutCapacity(cap, n, {s}) - value
  {
    var f := Crossing(cap, {s});
    var net := Net(cap, res);
    var left := v => if v == s then 0.0 else At(res, s, v);
    forall v | 0 <= v < n ensures net(s, v) == f(s, v) - left(v) {
      assert net(s, v) + net(v, s) == 0.0;
    }
    SumSub(n, v => f(s, v), left, v => net(s, v));
    SumAtLeastTerm(n, w, left);
    OneRow(n, s, f);
  }

  lemma OneRow(n: nat, s: int, f: (int, int) -> real)
    requires 0 <= s < n && forall u, v :: u != s ==> f(u, v) == 0.0
    ensures Sum2(n, n, f) == RowSum(n, f, s)
  {
    forall u | u != s ensures RowSum(n, f, u) == 0.0 { SumZero(n, v => f(u, v)); }
    var zero := (i: int) => 0.0;
    SumUpdate(n, s, zero, i => RowSum(n, f, i));
    SumZero(n, zero);
  }

  /** An arc with a base of its own keeps more room than the source has left to send. */
  lemma DearArcHasRoom(cap: Matrix, n: nat, s: int, t: int, res: Matrix, value: real, base: (int, int) -> real, q: real,
                       x: int, y: int)
    requires ResidualState(cap, n, s, t, res, value) && OnGrid(cap, n, s, base, q) && base(x, y) != 0.0
    ensures At(res, x, y) > CutCapacity(cap, n, {s}) - value + TOLERANCE
  {
    assert At(cap, x, y) - At(res, x, y) <= value;
  }

  /** The bottleneck lies on an arc that counts from zero, so it is a whole number of quanta. */
  lemma BottleneckOnGrid(cap: Matrix, n: nat, s: int, t: int, parent: seq<int>, rank: seq<int>, res: Matrix,
                         value: real,
                         path: seq<int>, b: real)
    requires ResidualState(cap, n, s, t, res, value) && KeepsQuanta(cap, n, s, res) && |parent| == n
    requires TreePath(parent, rank, s, t, path) && path[|path| - 1] == s && LeastOnPath(res, path, b)
    ensures OnEveryGrid(cap, n, s, b)
  {
    forall base, q | OnGrid(cap, n, s, base, q) ensures IsMultiple(b, q) {
      var i, x, y :| ArcAt(path, i, x, y) && b == At(res, x, y);
      if base(x, y) != 0.0 {
        var w := path[|path| - 2];
        PathDistinct(parent, rank, s, t, path);
        assert ArcAt(path, |path| - 2, s, w);
        SourceArcLeft(cap, n, s, t, res, value, w);
        DearArcHasRoom(cap, n, s, t, res, value, base, q, x, y);
      }
      assert IsMultiple(At(res, x, y) - base(x, y), q);
    }
  }

  method PushInPlace(residual: array2<real>, u: nat, v: nat, b: real)
    requires residual.Length0 == residual.Length1 && u < residual.Length0 && v < residual.Length0
    modifies residual
    ensures View(residual) == PushedArc(old(View(residual)), u, v, b)
  {
    Write(residual, u, v, residual[u, v] - b);
    Write(residual, v, u, residual[v, u] + b);
  }

  /** One augmentation: the flow value grows by the bottleneck and the residual state is kept. */
  method Augment(residual: array2<real>, n: nat, parent: seq<int>, ghost rank: seq<int>, s: int, t: int,
                 ghost cap: Matrix, ghost value: real)
    returns (bottleneck: real)
    requires residual.Length0 == residual.Length1 == n && |parent| == n
    requires ResidualState(cap, n, s, t, View(residual), value)
    requires SearchTree(View(residual), n, s, parent, rank) && parent[t] != -1
    requires KeepsQuanta(cap, n, s, View(residual))
    modifies residual
    ensures bottleneck > TOLERANCE
    ensures ResidualState(cap, n, s, t, View(residual), value + bottleneck)
    ensures KeepsQuanta(cap, n, s, View(residual))
  {
    ghost var res0 := View(residual);
    ghost var path;
    bottleneck, path := Bottleneck(residual, n, parent, rank, s, t);
    AugmentingStart(cap, n, s, t, parent, rank, res0, value, path, bottleneck);
    ghost var k := PushAlongPath(residual, n, parent, s, t, bottleneck, cap, res0, path);
    AugmentedState(cap, n, s, t, res0, View(residual), value, path, k, bottleneck);
    AugmentingKeeps(cap, n, s, t, parent, res0, View(residual), path, k, bottleneck);
  }

  /** The walk back from the sink, pushing the bottleneck along each arc. */
  method PushAlongPath(residual: array2<real>, n: nat, parent: seq<int>, s: int, t: int, bottleneck: real,
                       ghost cap: Matrix, ghost res0: Matrix, ghost path: seq<int>)
    returns (ghost k: nat)
    requires residual.Length0 == residual.Length1 == n && path != [] && path[0] == t
    requires Augmenting(cap, n, s, t, parent, res0, View(residual), path, 0, bottleneck)
    modifies residual
    ensures Augmenting(cap, n, s, t, parent, res0, View(residual), path, k, bottleneck)
    ensures k < |path| && path[k] == s
  {
    k := 0;
    var v := t;
    while v != s
      invariant Augmenting(cap, n, s, t, parent, res0, View(residual), path, k, bottleneck)
      invariant k < |path| && v == path[k]
      decreases |path| - k
    {
      AugmentingStep(cap, n, s, t, parent, res0, View(residual), path, k, bottleneck);
      var u := parent[v];
      PushInPlace(residual, u, v, bottleneck);
      v := u;
      k := k + 1;
    }
  }

  /** What the pushes along the path keep. */
  ghost predicate Augmenting(cap: Matrix, n: nat, s: int, t: int, parent: seq<int>, res0: Matrix, res: Matrix,
                             path: seq<int>, k: nat, b: real) {
    && b > 0.0 && |parent| == n && path != [] && path[|path| - 1] == s
    && (forall i :: 0 <= i < |path| ==> 0 <= path[i] < n)
    && (forall i :: 0 <= i < |path| - 1 ==> Climbs(parent, s, path, i))
    && (forall i, j :: 0 <= i < j < |path| ==> path[i] != path[j])
    && OnEveryGrid(cap, n, s, b)
    && Pushed(cap, n, t, res0, res, path, k, b) && KeepsQuanta(cap, n, s, res)
  }

  lemma AugmentingStart(cap: Matrix, n: nat, s: int, t: int, parent: seq<int>, rank: seq<int>, res0: Matrix,
                        value: real,
                        path: seq<int>, b: real)
    requires ResidualState(cap, n, s, t, res0, value) && |parent| == n && b > 0.0
    requires TreePath(parent, rank, s, t, path) && path[|path| - 1] == s && LeastOnPath(res0, path, b)
    requires KeepsQuanta(cap, n, s, res0)
    ensures Augmenting(cap, n, s, t, parent, res0, res0, path, 0, b)
  {
    PathDistinct(parent, rank, s, t, path);
    BottleneckOnGrid(cap, n, s, t, parent, rank, res0, value, path, b);
  }

  lemma AugmentingStep(cap: Matrix, n: nat, s: int, t: int, parent: seq<int>, res0: Matrix, res: Matrix,
                       path: seq<int>, k: nat, b: real)
    requires Augmenting(cap, n, s, t, parent, res0, res, path, k, b) && k < |path| && path[k] != s
    ensures k + 1 < |path| && 0 <= path[k] < n == |parent| && path[k + 1] == parent[path[k]]
    ensures 0 <= path[k + 1] < n && path[k + 1] != path[k]
    ensures Augmenting(cap, n, s, t, parent, res0, PushedArc(res, path[k + 1], path[k], b), path, k + 1, b)
  {
    assert k + 1 < |path|;
    assert Climbs(parent, s, path, k);
    PushArc(cap, n, t, res0, res, path, k, b);
    PushKeepsQuanta(cap, n, s, res, path[k + 1], path[k], b);
  }

  lemma AugmentingKeeps(cap: Matrix, n: nat, s: int, t: int, parent: seq<int>, res0: Matrix, res: Matrix,
                        path: seq<int>, k: nat, b: real)
    requires Augmenting(cap, n, s, t, parent, res0, res, path, k, b)
    ensures KeepsQuanta(cap, n, s, res)
  {
  }

  lemma AugmentedState(cap: Matrix, n: nat, s: int, t: int, res0: Matrix, res: Matrix, value: real,
                       path: seq<int>, k: nat, b: real)
    requires ResidualState(cap, n, s, t, res0, value) && Pushed(cap, n, t, res0, res, path, k, b)
    requires path[k] == s && b >= 0.0 && LeastOnPath(res0, path, b)
    ensures ResidualState(cap, n, s, t, res, value + b)
  {
    forall x, y ensures At(res, x, y) >= 0.0 && At(cap, x, y) - At(res, x, y) <= value + b {
      assert At(res, x, y) >= At(res0, x, y) - Lowered(path, k, b, x, y);
      if Lowered(path, k, b, x, y) != 0.0 {
        var i :| 0 <= i < k && ArcAt(path, i, x, y);
      }
    }
  }

  // ---------------------------------------------------------------- maximum flow

  datatype FlowError = NotSquare | NodeOutOfRange | SourceIsSink

  datatype FlowAnswer = FlowAnswer(value: real, flow: Matrix)

  /** No usable residual arc leaves `side`. */
  ghost predicate Exhausted(res: Matrix, n: nat, side: set<int>) {
    forall u, v :: u in side && 0 <= v < n && v !in side ==> At(res, u, v) <= TOLERANCE
  }

  /** The residual capacities a flow leaves: what is unused, plus what may be undone. */
  function ResidualOf(cap: Matrix, flow: Matrix): (r: Matrix)
    requires Shape(cap, |cap|, |cap|) && Shape(flow, |cap|, |cap|)
    ensures Shape(r, |cap|, |cap|)
    ensures forall u, v :: At(r, u, v) == At(cap, u, v) - At(flow, u, v) + At(flow, v, u)
  {
    seq(|cap|, i requires 0 <= i < |cap| =>
      seq(|cap|, j requires 0 <= j < |cap| => cap[i][j] - flow[i][j] + flow[j][i]))
  }

  function FlowCell(c: real, left: real): real {
    if c > 0.0 && c - left > 0.0 then c - left else 0.0
  }

  /** The arc flows the program reads off the final residual matrix. */
  function FlowOf(cap: Matrix, res: Matrix): (f: Matrix)
    requires Shape(cap, |cap|, |cap|) && Shape(res, |cap|, |cap|)
    ensures Shape(f, |cap|, |cap|)
    ensures forall u, v :: At(f, u, v) == FlowCell(At(cap, u, v), At(res, u, v))
  {
    seq(|cap|, i requires 0 <= i < |cap| => seq(|cap|, j requires 0 <= j < |cap| => FlowCell(cap[i][j], res[i][j])))
  }

  /** Reading the flow off the residual loses nothing: the residual comes back, and the flow is feasible. */
  lemma FlowOfResidual(cap: Matrix, n: nat, s: int, t: int, res: Matrix, value: real)
    requires ResidualState(cap, n, s, t, res, value)
    ensures IsFlow(cap, n, s, t, FlowOf(cap, res), value)
    ensures ResidualOf(cap, FlowOf(cap, res)) == res
  {
    var flow := FlowOf(cap, res);
    forall u, v | 0 <= u < n && 0 <= v < n
      ensures At(flow, u, v) - At(flow, v, u) == Net(cap, res)(u, v)
    {
      assert Net(cap, res)(u, v) + Net(cap, res)(v, u) == 0.0;
    }
    forall k | 0 <= k < n ensures Outflow(flow, n, k) - Inflow(flow, n, k) == RowSum(n, Net(cap, res), k) {
      var net := Net(cap, res);
      SumSub(n, v => At(flow, k, v), v => At(flow, v, k), v => net(k, v));
    }
    MatrixExt(ResidualOf(cap, flow), res, n, n);
  }

  /** How far the program's stopping rule leaves the best flow: exact when the capacities are on a grid, and otherwise
      within `n * n` tolerances. */
  lemma ExhaustedCutIsFull(cap: Matrix, n: nat, s: int, t: int, res: Matrix, value: real, side: set<int>)
    requires ResidualState(cap, n, s, t, res, value) && KeepsQuanta(cap, n, s, res)
    requires IsCut(n, s, t, side) && Exhausted(res, n, side)
    ensures value <= CutCapacity(cap, n, side) <= value + n as real * (n as real * TOLERANCE)
    ensures forall base, q :: OnGrid(cap, n, s, base, q) ==> CutCapacity(cap, n, side) == value
  {
    ValueAtMostCut(cap, n, s, t, res, value, side);
    SaturatedCut(cap, n, s, t, res, value, side, TOLERANCE);
    forall base, q | OnGrid(cap, n, s, base, q) ensures CutCapacity(cap, n, side) == value {
      forall u, v | u in side && 0 <= v < n && v !in side ensures At(res, u, v) <= 0.0 {
        ExhaustedOnGrid(cap, n, s, t, res, value, base, q, u, v);
      }
      SaturatedCut(cap, n, s, t, res, value, side, 0.0);
    }
  }

  lemma ExhaustedOnGrid(cap: Matrix, n: nat, s: int, t: int, res: Matrix, value: real, base: (int, int) -> real,
                        q: real,
                        u: int, v: int)
    requires ResidualState(cap, n, s, t, res, value) && OnGrid(cap, n, s, base, q) && Quantized(res, base, q)
    requires At(res, u, v) <= TOLERANCE
    ensures At(res, u, v) == 0.0
  {
    ValueAtMostCut(cap, n, s, t, res, value, {s});
    if base(u, v) != 0.0 { DearArcHasRoom(cap, n, s, t, res, value, base, q, u, v); }
    assert IsMultiple(At(res, u, v) - base(u, v), q);
    MultipleAboveTolerance(At(res, u, v), q);
  }

  lemma InitialState(cap: Matrix, n: nat, s: int, t: int)
    requires Capacities(cap, n) && 0 <= s < n && 0 <= t < n && s != t
    ensures ResidualState(cap, n, s, t, cap, 0.0)
  {
    forall k | 0 <= k < n ensures RowSum(n, Net(cap, cap), k) == 0.0 {
      var net := Net(cap, cap);
      SumZero(n, v => net(k, v));
    }
  }

  lemma SearchedSide(res: Matrix, n: nat, s: int, t: int, parent: seq<int>, rank: seq<int>) returns (side: set<int>)
    requires SearchTree(res, n, s, parent, rank) && 0 <= t < n && s != t && parent[t] == -1
    requires AllExpanded(res, n, parent, [])
    ensures IsCut(n, s, t, side) && Exhausted(res, n, side)
  {
    side := set v | 0 <= v < n && parent[v] != -1;
    forall u, v | u in side && 0 <= v < n && v !in side ensures At(res, u, v) <= TOLERANCE {
      assert Expanded(res, n, parent, u, n);
    }
  }

  method AugmentToExhaustion(residual: array2<real>, n: nat, s: int, t: int, ghost cap: Matrix)
    returns (value: real, ghost side: set<int>)
    requires residual.Length0 == residual.Length1 == n && View(residual) == cap
    requires Capacities(cap, n) && 0 <= s < n && 0 <= t < n && s != t
    modifies residual
    ensures ResidualState(cap, n, s, t, View(residual), value) && KeepsQuanta(cap, n, s, View(residual))
    ensures IsCut(n, s, t, side) && Exhausted(View(residual), n, side)
  {
    value := 0.0;
    InitialState(cap, n, s, t);
    while true
      invariant ResidualState(cap, n, s, t, View(residual), value) && KeepsQuanta(cap, n, s, View(residual))
      decreases (CutCapacity(cap, n, {s}) - value) / TOLERANCE
    {
      var parent, rank := Search(residual, n, s, t);
      if parent[t] == -1 {
        side := SearchedSide(View(residual), n, s, t, parent, rank);
        return;
      }
      var bottleneck := Augment(residual, n, parent, rank, s, t, cap, value);
      value := value + bottleneck;
      ValueAtMostCut(cap, n, s, t, View(residual), value, {s});
    }
  }

  predicate ProperEnds(n: nat, source: int, sink: int) {
    0 <= source < n && 0 <= sink < n && source != sink
  }

  /** The flow is maximum up to the tolerance, and exactly maximum when the capacities are on a grid. */
  ghost predicate NearlyMaximum(cap: Matrix, n: nat, s: int, t: int, value: real) {
    && (forall other, w :: IsFlow(cap, n, s, t, other, w) ==> w <= value + n as real * (n as real * TOLERANCE))
    && (forall other, w, base, q :: IsFlow(cap, n, s, t, other, w) && OnGrid(cap, n, s, base, q) ==> w <= value)
  }

  lemma ExhaustionIsNearlyMaximum(cap: Matrix, n: nat, s: int, t: int, res: Matrix, value: real, side: set<int>)
    requires ResidualState(cap, n, s, t, res, value) && KeepsQuanta(cap, n, s, res)
    requires IsCut(n, s, t, side) && Exhausted(res, n, side)
    ensures NearlyMaximum(cap, n, s, t, value)
  {
    ExhaustedCutIsFull(cap, n, s, t, res, value, side);
    forall other, w | IsFlow(cap, n, s, t, other, w) ensures w <= CutCapacity(cap, n, side) {
      FlowAtMostCut(cap, n, s, t, other, w, side);
    }
  }

  /** Maximum flow. The ghost `side` is the set the last search reached: the arcs leaving it are exhausted. */
  method MaximumFlow(capacity: array2<real>, source: int, sink: int)
    returns (r: Result<FlowAnswer, FlowError>, ghost side: set<int>)
    requires capacity.Length0 == capacity.Length1 ==> Capacities(View(capacity), capacity.Length0)
    ensures r.Ok? <==> capacity.Length0 == capacity.Length1 && ProperEnds(capacity.Length0, source, sink)
    ensures r.Ok? ==> IsMaximumFlow(View(capacity), capacity.Length0, source, sink, r.value, side)
  {
    side := {};
    var n := capacity.Length0;
    if capacity.Length1 != n { return Err(NotSquare), side; }
    if !(0 <= source < n && 0 <= sink < n) { return Err(NodeOutOfRange), side; }
    if source == sink { return Err(SourceIsSink), side; }
    var residual := new real[n, n]((i, j) requires 0 <= i < n && 0 <= j < n reads capacity => capacity[i, j]);
    ghost var cap := View(capacity);
    MatrixExt(View(residual), cap, n, n);
    var value;
    value, side := AugmentToExhaustion(residual, n, source, sink, cap);
    var flow := ReadFlow(capacity, residual);
    AnswerOf(cap, n, source, sink, View(residual), value, side);
    r := Ok(FlowAnswer(value, flow));
  }

  /** What `MaximumFlow` promises: a feasible flow of its value, maximum as far as the stopping rule takes it, whose
      residual has no usable arc out of `side`. */
  ghost predicate IsMaximumFlow(cap: Matrix, n: nat, s: int, t: int, a: FlowAnswer, side: set<int>) {
    && Shape(cap, n, n) && |cap| == n && IsFlow(cap, n, s, t, a.flow, a.value)
    && ResidualState(cap, n, s, t, ResidualOf(cap, a.flow), a.value)
    && NearlyMaximum(cap, n, s, t, a.value) && KeepsQuanta(cap, n, s, ResidualOf(cap, a.flow))
    && IsCut(n, s, t, side) && Exhausted(ResidualOf(cap, a.flow), n, side)
  }

  lemma AnswerOf(cap: Matrix, n: nat, s: int, t: int, res: Matrix, value: real, side: set<int>)
    requires ResidualState(cap, n, s, t, res, value) && KeepsQuanta(cap, n, s, res)
    requires IsCut(n, s, t, side) && Exhausted(res, n, side)
    ensures IsMaximumFlow(cap, n, s, t, FlowAnswer(value, FlowOf(cap, res)), side)
  {
    FlowOfResidual(cap, n, s, t, res, value);
    ExhaustionIsNearlyMaximum(cap, n, s, t, res, value, side);
  }

  /** The flow left behind in the residual capacities. */
  method ReadFlow(capacity: array2<real>, residual: array2<real>) returns (flow: Matrix)
    requires capacity.Length0 == capacity.Length1 == residual.Length0 == residual.Length1
    ensures flow == FlowOf(View(capacity), View(residual))
  {
    var n := capacity.Length0;
    flow := seq(n, i requires 0 <= i < n reads capacity, residual =>
      seq(n, j requires 0 <= j < n reads capacity, residual => FlowCell(capacity[i, j], residual[i, j])));
    MatrixExt(flow, FlowOf(View(capacity), View(residual)), n, n);
  }

  // ---------------------------------------------------------------- minimum cut

  datatype Cut = Cut(capacity: real, side: seq<int>, edges: seq<(int, int)>)

  function Members(side: seq<int>): set<int> {
    set u | u in side
  }

  ghost predicate CutEdges(cap: Matrix, n: nat, side: set<int>, edges: seq<(int, int)>) {
    && (forall u, v :: (u, v) in edges <==> u in side && 0 <= v < n && v !in side && At(cap, u, v) > 0.0)
    && (forall i, j :: 0 <= i < j < |edges| ==> edges[i] != edges[j])
  }

  /** What `MinimumCut` promises about the cut it returns. */
  ghost predicate IsMinimumCut(cap: Matrix, n: nat, s: int, t: int, c: Cut) {
    var side := Members(c.side);
    && IsCut(n, s, t, side) && (forall i, j :: 0 <= i < j < |c.side| ==> c.side[i] < c.side[j])
    && c.capacity == CutCapacity(cap, n, side) && CutEdges(cap, n, side, c.edges)
    && (forall other :: IsCut(n, s, t, other) ==>
          c.capacity <= CutCapacity(cap, n, other) + n as real * (n as real * TOLERANCE))
    && (forall other, base, q :: IsCut(n, s, t, other) && OnGrid(cap, n, s, base, q) ==>
          c.capacity <= CutCapacity(cap, n, other))
    && NeverSevered(cap, n, s, t, side) && Supported(cap, s, side) && LeftExhausted(cap, n, s, t, side)
  }

  /** Some feasible flow leaves no usable arc out of the source side. */
  ghost predicate LeftExhausted(cap: Matrix, n: nat, s: int, t: int, side: set<int>) {
    exists flow, value :: IsFlow(cap, n, s, t, flow, value)
      && forall u, v :: u in side && 0 <= v < n && v !in side ==>
           At(cap, u, v) - At(flow, u, v) + At(flow, v, u) <= TOLERANCE
  }

  /** No arc dearer than some cut (by more than the tolerance) leaves the source side. */
  ghost predicate NeverSevered(cap: Matrix, n: nat, s: int, t: int, side: set<int>) {
    forall u, v, other :: u in side && 0 <= v < n && v !in side && IsCut(n, s, t, other) ==>
      At(cap, u, v) <= CutCapacity(cap, n, other) + TOLERANCE
  }

  /** Every node on the source side other than the source was reached over a usable pair of arcs. */
  ghost predicate Supported(cap: Matrix, s: int, side: set<int>) {
    forall v {:trigger HasSupport(cap, side, v)} :: v in side && v != s ==> HasSupport(cap, side, v)
  }

  predicate HasSupport(cap: Matrix, side: set<int>, v: int) {
    exists u :: u in side && At(cap, u, v) + At(cap, v, u) > TOLERANCE
  }

  function Nodes(n: nat): (r: set<int>)
    ensures forall v :: v in r <==> 0 <= v < n
  {
    if n == 0 then {} else Nodes(n - 1) + {n - 1}
  }

  predicate ReachedOver(res: Matrix, s: int, reached: set<int>, v: int) {
    v == s || exists u :: u in reached && At(res, u, v) > TOLERANCE
  }

  /** `u` keeps no usable arc to a node below `upto` that has not been reached. */
  ghost predicate Swept(res: Matrix, reached: set<int>, u: int, upto: int) {
    forall v :: 0 <= v < upto && v !in reached ==> At(res, u, v) <= TOLERANCE
  }

  ghost predicate Worklist(res: Matrix, n: nat, s: int, bound: set<int>, reached: set<int>, q: seq<int>) {
    && s in reached && reached <= bound && reached <= Nodes(n)
    && (forall u :: u in q ==> u in reached)
    && (forall v {:trigger ReachedOver(res, s, reached, v)} :: v in reached ==> ReachedOver(res, s, reached, v))
  }

  lemma Reach(res: Matrix, n: nat, s: int, bound: set<int>, reached: set<int>, q: seq<int>, u: int, v: int)
    requires Worklist(res, n, s, bound, reached, q) && Exhausted(res, n, bound)
    requires u in reached && 0 <= v < n && At(res, u, v) > TOLERANCE
    ensures Worklist(res, n, s, bound, reached + {v}, q + [v])
  {
    var more := reached + {v};
    assert u in more;
    forall w | w in more ensures ReachedOver(res, s, more, w) {
      if w != v && w != s {
        assert ReachedOver(res, s, reached, w);
        var x :| x in reached && At(res, x, w) > TOLERANCE;
        assert x in more;
      }
    }
  }

  /** Newly reached nodes are all queued, behind what was queued before. */
  ghost predicate Grown(reached0: set<int>, reached: set<int>, q0: seq<int>, q: seq<int>) {
    && reached0 <= reached && q0 <= q && (reached == reached0 ==> q == q0)
    && (forall w :: w in reached ==> w in reached0 || w in q)
  }

  lemma GrownMore(reached0: set<int>, reached: set<int>, q0: seq<int>, q: seq<int>, v: int)
    requires Grown(reached0, reached, q0, q) && v !in reached
    ensures Grown(reached0, reached + {v}, q0, q + [v])
  {
    assert v in reached + {v} && v !in reached0;
  }

  /** The inner loop: reach every usable neighbour of `u`. */
  method Sweep(res: Matrix, n: nat, s: int, ghost bound: set<int>, reached0: set<int>, q0: seq<int>, u: int)
    returns (reached: set<int>, q: seq<int>)
    requires Shape(res, n, n) && Exhausted(res, n, bound) && Worklist(res, n, s, bound, reached0, q0)
    requires u in reached0 && 0 <= u < n
    ensures Worklist(res, n, s, bound, reached, q) && Swept(res, reached, u, n) && Grown(reached0, reached, q0, q)
  {
    reached, q := reached0, q0;
    for v := 0 to n
      invariant Worklist(res, n, s, bound, reached, q) && Swept(res, reached, u, v)
      invariant Grown(reached0, reached, q0, q)
    {
      if v !in reached && res[u][v] > TOLERANCE {
        Reach(res, n, s, bound, reached, q, u, v);
        GrownMore(reached0, reached, q0, q, v);
        reached, q := reached + {v}, q + [v];
      }
    }
  }

  /** The nodes reachable in the final residual graph. */
  method Reachable(res: Matrix, n: nat, s: int, ghost bound: set<int>) returns (reached: set<int>)
    requires Shape(res, n, n) && 0 <= s < n && s in bound && Exhausted(res, n, bound)
    ensures Worklist(res, n, s, bound, reached, []) && Exhausted(res, n, reached)
  {
    reached := {s};
    var q := [s];
    while q != []
      invariant Worklist(res, n, s, bound, reached, q)
      invariant forall u :: u in reached && u !in q ==> Swept(res, reached, u, n)
      decreases Nodes(n) - reached, |q|
    {
      var u := q[0];
      ghost var rest, before := q[1..], reached;
      assert q == [u] + rest;
      reached, q := Sweep(res, n, s, bound, reached, q[1..], u);
      forall w | w in reached && w !in q ensures Swept(res, reached, w, n) {
        if w != u {
          assert w in before && w !in [u] + rest;
          assert Swept(res, before, w, n);
        }
      }
    }
  }

  /** The crossing arcs of positive capacity out of one node, and their total. */
  method CrossingFrom(cap: Matrix, n: nat, side: set<int>, u: int) returns (edges: seq<(int, int)>, total: real)
    requires Capacities(cap, n) && u in side && 0 <= u < n
    ensures total == RowSum(n, Crossing(cap, side), u) && forall i :: 0 <= i < |edges| ==> edges[i].0 == u
    ensures forall a, b :: (a, b) in edges <==> a == u && 0 <= b < n && b !in side && At(cap, a, b) > 0.0
    ensures forall i, j :: 0 <= i < j < |edges| ==> edges[i] != edges[j]
  {
    edges, total := [], 0.0;
    ghost var f := Crossing(cap, side);
    for v := 0 to n
      invariant total == Sum(v, j => f(u, j)) && forall i :: 0 <= i < |edges| ==> edges[i].0 == u
      invariant forall a, b :: (a, b) in edges <==> a == u && 0 <= b < v && b !in side && At(cap, a, b) > 0.0
      invariant forall i, j :: 0 <= i < j < |edges| ==> edges[i] != edges[j]
    {
      assert f(u, v) == if v !in side then At(cap, u, v) else 0.0;
      assert At(cap, u, v) == cap[u][v] >= 0.0;
      if v !in side && cap[u][v] > 0.0 {
        assert (u, v) !in edges;
        edges := edges + [(u, v)];
        total := total + cap[u][v];
      }
    }
  }

  /** The source side in increasing order, its crossing arcs, and their total capacity. */
  method ListCut(cap: Matrix, n: nat, side: set<int>) returns (c: Cut)
    requires Capacities(cap, n) && side <= Nodes(n)
    ensures Members(c.side) == side && forall i, j :: 0 <= i < j < |c.side| ==> c.side[i] < c.side[j]
    ensures c.capacity == CutCapacity(cap, n, side) && CutEdges(cap, n, side, c.edges)
  {
    var listed, edges, total := [], [], 0.0;
    ghost var f := Crossing(cap, side);
    for u := 0 to n
      invariant forall x :: x in listed <==> x in side && x < u
      invariant forall i :: 0 <= i < |listed| ==> listed[i] < u
      invariant forall i, j :: 0 <= i < j < |listed| ==> listed[i] < listed[j]
      invariant total == Sum(u, i => RowSum(n, f, i))
      invariant forall a, b :: (a, b) in edges <==>
        a in side && a < u && 0 <= b < n && b !in side && At(cap, a, b) > 0.0
      invariant forall i :: 0 <= i < |edges| ==> edges[i].0 < u
      invariant forall i, j :: 0 <= i < j < |edges| ==> edges[i] != edges[j]
    {
      if u in side {
        var more, part := CrossingFrom(cap, n, side, u);
        listed := listed + [u];
        edges := edges + more;
        total := total + part;
      } else {
        SumZero(n, v => f(u, v));
      }
    }
    c := Cut(total, listed, edges);
    assert Members(listed) == side;
  }

  /** The source side found by the residual search is a minimum cut, in the sense of `IsMinimumCut`. */
  lemma ReachedIsMinimum(cap: Matrix, n: nat, s: int, t: int, res: Matrix, value: real, bound: set<int>,
                         reached: set<int>, c: Cut)
    requires ResidualState(cap, n, s, t, res, value) && KeepsQuanta(cap, n, s, res)
    requires Worklist(res, n, s, bound, reached, []) && Exhausted(res, n, reached) && t !in bound
    requires Members(c.side) == reached && forall i, j :: 0 <= i < j < |c.side| ==> c.side[i] < c.side[j]
    requires c.capacity == CutCapacity(cap, n, reached) && CutEdges(cap, n, reached, c.edges)
    ensures IsMinimumCut(cap, n, s, t, c)
  {
    ExhaustedCutIsFull(cap, n, s, t, res, value, reached);
    forall other | IsCut(n, s, t, other) ensures value <= CutCapacity(cap, n, other) {
      ValueAtMostCut(cap, n, s, t, res, value, other);
    }
    ReachedIsExhausted(cap, n, s, t, res, value, reached);
    forall v | v in reached && v != s ensures HasSupport(cap, reached, v) {
      assert ReachedOver(res, s, reached, v);
      var u :| u in reached && At(res, u, v) > TOLERANCE;
      assert Net(cap, res)(u, v) + Net(cap, res)(v, u) == 0.0;
      assert At(res, v, u) >= 0.0;
    }
  }

  lemma ReachedIsExhausted(cap: Matrix, n: nat, s: int, t: int, res: Matrix, value: real, reached: set<int>)
    requires ResidualState(cap, n, s, t, res, value) && Exhausted(res, n, reached)
    ensures LeftExhausted(cap, n, s, t, reached)
  {
    var flow := FlowOf(cap, res);
    FlowOfResidual(cap, n, s, t, res, value);
    assert IsFlow(cap, n, s, t, flow, value);
    forall u, v | u in reached && 0 <= v < n && v !in reached
      ensures At(cap, u, v) - At(flow, u, v) + At(flow, v, u) <= TOLERANCE
    {
      assert At(ResidualOf(cap, flow), u, v) == At(res, u, v);
    }
  }

  /** Minimum cut by maximum flow and one more residual search. */
  method MinimumCut(capacity: array2<real>, source: int, sink: int) returns (r: Result<Cut, FlowError>)
    requires capacity.Length0 == capacity.Length1 ==> Capacities(View(capacity), capacity.Length0)
    ensures r.Ok? <==> capacity.Length0 == capacity.Length1 && ProperEnds(capacity.Length0, source, sink)
    ensures r.Ok? ==> IsMinimumCut(View(capacity), capacity.Length0, source, sink, r.value)
  {
    var n := capacity.Length0;
    ghost var side;
    var answer;
    answer, side := MaximumFlow(capacity, source, sink);
    if answer.Err? { return Err(answer.error); }
    var cap := seq(n, i requires 0 <= i < n reads capacity =>
      seq(n, j requires 0 <= j < n reads capacity => capacity[i, j]));
    MatrixExt(cap, View(capacity), n, n);
    var res := ResidualOf(cap, answer.value.flow);
    var reached := Reachable(res, n, source, side);
    var c := ListCut(cap, n, reached);
    ReachedIsMinimum(cap, n, source, sink, res, answer.value.value, side, reached, c);
    r := Ok(c);
  }
}
