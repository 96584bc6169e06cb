/**
 * The period-stepped twin of a supply network: interventions applied in place, one augmented
 * minimum-cost flow per period, and the lost-sales accounting read off it.
 */
module Twin {
  import opened Numbers
  import opened Outcomes
  import opened Sums
  import opened Matrices
  import opened SlackNetwork

  // ---------------------------------------------------------------- the augmented problem is always feasible

  /** Every surplus node sends its surplus to slack and every deficit node draws from it. */
  function AllThroughSlack(supply: seq<real>): (f: Matrix)
    ensures Shape(f, |supply| + 1, |supply| + 1)
    ensures forall u, v :: At(f, u, v) == SlackArc(supply, u, v)
  {
    seq(|supply| + 1, u => seq(|supply| + 1, v => SlackArc(supply, u, v)))
  }

  function SlackArc(supply: seq<real>, u: int, v: int): real {
    var n := |supply|;
    if 0 <= u < n && v == n then Room(supply[u]) else if u == n && 0 <= v < n then Room(-supply[v]) else 0.0
  }

  lemma MagnitudeBoundsNode(supply: seq<real>, i: int)
    requires 0 <= i < |supply|
    ensures Abs(supply[i]) <= Magnitudes(supply)
  {
    SumAtLeastTerm(|supply|, i, j => if 0 <= j < |supply| then Abs(supply[j]) else 0.0);
  }

  lemma RealNodeBalance(supply: seq<real>, k: int)
    requires 0 <= k < |supply|
    ensures NetOut(AllThroughSlack(supply), |supply| + 1, k) == supply[k]
  {
    var f, n := AllThroughSlack(supply), |supply|;
    assert Sum(n + 1, v => At(f, k, v)) == Sum(n, v => At(f, k, v)) + At(f, k, n);
    SumZero(n, v => At(f, k, v));
    assert Sum(n + 1, v => At(f, v, k)) == Sum(n, v => At(f, v, k)) + At(f, n, k);
    SumZero(n, v => At(f, v, k));
  }

  lemma SlackNodeBalance(supply: seq<real>)
    ensures NetOut(AllThroughSlack(supply), |supply| + 1, |supply|) == -TotalSupply(supply)
  {
    var f, n := AllThroughSlack(supply), |supply|;
    var out, into := v => At(f, n, v), v => At(f, v, n);
    assert Sum(n + 1, out) == Sum(n, out) + out(n) && Sum(n + 1, into) == Sum(n, into) + into(n);
    SumSub(n, into, out, i => if 0 <= i < |supply| then supply[i] else 0.0);
  }

  /** The augmented problem is balanced and feasible for every supply vector. */
  lemma AugmentedIsFeasible(p: Problem, q: Problem)
    requires IsAugmented(p, q)
    ensures TotalSupply(q.supply) == 0.0
    ensures FeasibleFlow(q, AllThroughSlack(p.supply))
  {
    var n, f := |p.supply|, AllThroughSlack(p.supply);
    SumExt(
      n, i => if 0 <= i < |q.supply| then q.supply[i] else 0.0, i => if 0 <= i < |p.supply| then p.supply[i] else 0.0);
    forall u, v ensures 0.0 <= At(f, u, v) <= Room(At(q.cap, u, v)) {
      if 0 <= u < n && v == n { MagnitudeBoundsNode(p.supply, u); }
      if u == n && 0 <= v < n { MagnitudeBoundsNode(p.supply, v); }
    }
    forall k | 0 <= k < |q.supply| ensures NetOut(f, |q.supply|, k) == q.supply[k] {
      if k < n { RealNodeBalance(p.supply, k); } else { SlackNodeBalance(p.supply); }
    }
  }

  // ---------------------------------------------------------------- delivery and lost sales

  /** What node `d` keeps: inflow over real arcs less what it forwards over real arcs. */
  function Delivered(f: Matrix, n: nat, d: int): real {
    Sum(n, u => At(f, u, d)) - Sum(n, v => At(f, d, v))
  }

  /** What node `d` is topped up by through slack. */
  function SlackInflow(f: Matrix, n: nat, d: int): real {
    At(f, n, d) - At(f, d, n)
  }

  /** In any feasible flow, a node's net delivery plus its net slack inflow is exactly what it demands. */
  lemma DeliveryPlusSlackIsDemand(p: Problem, q: Problem, f: Matrix, d: int)
    requires IsAugmented(p, q) && FeasibleFlow(q, f) && 0 <= d < |p.supply|
    ensures Delivered(f, |p.supply|, d) + SlackInflow(f, |p.supply|, d) == -p.supply[d]
  {
    var n := |p.supply|;
    assert NetOut(f, n + 1, d) == q.supply[d];
    assert Sum(n + 1, v => At(f, d, v)) == Sum(n, v => At(f, d, v)) + At(f, d, n);
    assert Sum(n + 1, v => At(f, v, d)) == Sum(n, v => At(f, v, d)) + At(f, n, d);
  }

  /** The flow solver's contract: a minimum-cost flow whenever the problem has a feasible one. */
  ghost predicate SolvesMinCost(solve: Problem -> Matrix) {
    forall q :: WellShaped(q) && (exists f :: FeasibleFlow(q, f)) ==> IsMinCost(q, solve(q))
  }

  // ---------------------------------------------------------------- augmentation in place

  /** Extend the three arrays of one period by the slack node. */
  method AugmentWithSlack(cap: array2<real>, cost: array2<real>, supply: array<real>)
    returns (capExt: array2<real>, costExt: array2<real>, supplyExt: array<real>)
    requires cap.Length0 == cap.Length1 == cost.Length0 == cost.Length1 == supply.Length
    ensures fresh(capExt) && fresh(costExt) && fresh(supplyExt)
    ensures IsAugmented(Problem(View(cap), View(cost), supply[..]), Problem(View(capExt), View(costExt), supplyExt[..]))
  {
    var n := supply.Length;
    ghost var p := Problem(View(cap), View(cost), supply[..]);
    var capSlack := SlackCapacity(supply[..]);
    var costSlack := PriceSlack(cap, cost, n);
    capExt := Extend(cap, n, capSlack);
    costExt := Extend(cost, n, costSlack);
    supplyExt := new real[n + 1](i requires 0 <= i <= n reads supply =>
      if i < n then supply[i] else -TotalSupply(supply[..]));
    assert supplyExt[..] == p.supply + [-TotalSupply(p.supply)];
  }

  method PriceSlack(cap: array2<real>, cost: array2<real>, n: nat) returns (price: real)
    requires cap.Length0 == cap.Length1 == cost.Length0 == cost.Length1 == n
    ensures price == SlackCost(View(cap), View(cost), n)
  {
    var ceiling := 0.0;
    ghost var weight := ArcWeight(View(cap), View(cost));
    for u := 0 to n
      invariant ceiling == Sum(u, i => RowSum(n, weight, i))
    {
      var row := 0.0;
      for v := 0 to n
        invariant row == Sum(v, j => weight(u, j))
      {
        assert At(View(cap), u, v) == cap[u, v] && At(View(cost), u, v) == cost[u, v];
        if cap[u, v] > 0.0 { row := row + Abs(cost[u, v]); }
      }
      ceiling := ceiling + row;
    }
    price := Larger(SLACK_COST, ceiling + 1.0);
  }

  method Extend(m: array2<real>, n: nat, slack: real) returns (ext: array2<real>)
    requires m.Length0 == m.Length1 == n
    ensures fresh(ext) && ext.Length0 == ext.Length1 == n + 1
    ensures forall u, v :: 0 <= u <= n && 0 <= v <= n ==> At(View(ext), u, v) == ExtendedCell(View(m), n, slack, u, v)
  {
    ext := new real[n + 1, n + 1]((i, j) => 0.0);
    forall i, j | 0 <= i < n && 0 <= j < n { ext[i, j] := m[i, j]; }
    forall i | 0 <= i < n { ext[i, n] := slack; }
    forall j | 0 <= j < n { ext[n, j] := slack; }
    assert forall u, v :: 0 <= u <= n && 0 <= v <= n ==>
      ext[u, v] == if u < n && v < n then m[u, v] else if u < n || v < n then slack else 0.0;
    forall u, v | 0 <= u <= n && 0 <= v <= n ensures At(View(ext), u, v) == ExtendedCell(View(m), n, slack, u, v) {
      assert At(View(ext), u, v) == ext[u, v];
      if u < n && v < n { assert At(View(m), u, v) == m[u, v]; }
    }
  }

  // ---------------------------------------------------------------- interventions

  /** One entry of a scenario, in the order the scenario lists them. */
  datatype Edit =
    | AddArc(u: int, v: int, capacity: real, price: real)
    | ZeroNode(node: int)
    | SupplyMultiplier(node: int, factor: real)
    | DemandDelta(node: int, delta: real)
    | UnknownKind(kind: string)

  datatype TwinError = BadPeriods | UnknownScenario | UnknownIntervention | NotADemandNode | IndexError

  /** Array indices count from the end when negative; `None` when off the array. */
  function NodeIndex(i: int, n: nat): Option<nat> {
    if 0 <= i < n then Some(i) else if i < 0 && i + n >= 0 then Some(i + n) else None
  }

  /** The nodes that a list of indices names; `None` when one is off the array. */
  function Positions(nodes: seq<int>, n: nat): (r: Option<seq<int>>)
    ensures r.None? <==> exists j :: 0 <= j < |nodes| && NodeIndex(nodes[j], n).None?
    ensures r.Some? ==> |r.value| == |nodes|
    ensures r.Some? ==> forall j :: 0 <= j < |nodes| ==>
      0 <= r.value[j] < n && NodeIndex(nodes[j], n) == Some(r.value[j])
  {
    if exists j :: 0 <= j < |nodes| && NodeIndex(nodes[j], n).None? then None
    else Some(seq(|nodes|, j requires 0 <= j < |nodes| && NodeIndex(nodes[j], n).Some? => NodeIndex(nodes[j], n).value))
  }

  function CutOff(cap: Matrix, node: int): (r: Matrix)
    ensures |r| == |cap| && forall u :: 0 <= u < |cap| ==> |r[u]| == |cap[u]|
    ensures forall u, v :: At(r, u, v) == if u == node || v == node then 0.0 else At(cap, u, v)
  {
    seq(|cap|, u requires 0 <= u < |cap| => seq(|cap[u]|, v requires 0 <= v < |cap[u]| =>
      if u == node || v == node then 0.0 else cap[u][v]))
  }

  function Multiplied(x: real, factor: real): real {
    x * factor
  }

  function ApplyEdit(p: Problem, e: Edit, demandNodes: seq<int>): (r: Result<Problem, TwinError>)
    requires WellShaped(p)
    ensures r.Ok? ==> WellShaped(r.value) && |r.value.supply| == |p.supply|
  {
    var n := |p.supply|;
    match e
    case AddArc(u, v, c, w) =>
      var i, j := NodeIndex(u, n), NodeIndex(v, n);
      if i.None? || j.None? then Err(IndexError)
      else Ok(p.(cap := Put(p.cap, i.value, j.value, c), cost := Put(p.cost, i.value, j.value, w)))
    case ZeroNode(node) =>
      var i := NodeIndex(node, n);
      if i.None? then Err(IndexError) else Ok(p.(cap := CutOff(p.cap, i.value)))
    case SupplyMultiplier(node, factor) =>
      var i := NodeIndex(node, n);
      if i.None? then Err(IndexError) else Ok(p.(supply := p.supply[i.value := Multiplied(p.supply[i.value], factor)]))
    case DemandDelta(node, delta) =>
      if node !in demandNodes then Err(NotADemandNode)
      else
        var i := NodeIndex(node, n);
        if i.None? then Err(IndexError) else Ok(p.(supply := p.supply[i.value := p.supply[i.value] - delta]))
    case UnknownKind(_) => Err(UnknownIntervention)
  }

  function ApplyEdits(p: Problem, edits: seq<Edit>, demandNodes: seq<int>): (r: Result<Problem, TwinError>)
    requires WellShaped(p)
    ensures r.Ok? ==> WellShaped(r.value) && |r.value.supply| == |p.supply|
    decreases |edits|
  {
    if edits == [] then Ok(p) else
    var first := ApplyEdit(p, edits[0], demandNodes);
    if first.Err? then first else ApplyEdits(first.value, edits[1..], demandNodes)
  }

  ghost function Held(cap: array2<real>, cost: array2<real>, supply: array<real>): Problem
    reads cap, cost, supply
  {
    Problem(View(cap), View(cost), supply[..])
  }

  method CutOffInPlace(cap: array2<real>, n: nat, node: nat)
    requires cap.Length0 == cap.Length1 == n && node < n
    modifies cap
    ensures View(cap) == CutOff(old(View(cap)), node)
  {
    ghost var before := View(cap);
    forall v | 0 <= v < n { cap[node, v] := 0.0; }
    forall u | 0 <= u < n { cap[u, node] := 0.0; }
    ghost var target := CutOff(before, node);
    forall u, v | 0 <= u < n && 0 <= v < n ensures At(View(cap), u, v) == At(target, u, v) {
      assert At(View(cap), u, v) == cap[u, v] && At(before, u, v) == old(cap[u, v]);
    }
    MatrixExt(View(cap), target, n, n);
  }

  method Store(a: array<real>, i: nat, x: real)
    requires i < a.Length
    modifies a
    ensures a[..] == old(a[..])[i := x]
  {
    a[i] := x;
  }

  /** One edit, applied in place. */
  method EditInPlace(cap: array2<real>, cost: array2<real>, supply: array<real>, e: Edit, demandNodes: seq<int>)
    returns (failure: Option<TwinError>)
    requires cap.Length0 == cap.Length1 == cost.Length0 == cost.Length1 == supply.Length && cap != cost
    modifies cap, cost, supply
    ensures var r := ApplyEdit(old(Held(cap, cost, supply)), e, demandNodes);
      if failure.Some? then r == Err(failure.value) else r == Ok(Held(cap, cost, supply))
  {
    var n := supply.Length;
    ghost var p := Held(cap, cost, supply);
    failure := None;
    match e
    case AddArc(u, v, c, w) =>
      var i, j := NodeIndex(u, n), NodeIndex(v, n);
      if i.None? || j.None? { return Some(IndexError); }
      Write(cap, i.value, j.value, c);
      Write(cost, i.value, j.value, w);
      assert View(cap) == Put(p.cap, i.value, j.value, c) && View(cost) == Put(p.cost, i.value, j.value, w);
      assert supply[..] == p.supply;
    case ZeroNode(node) =>
      var i := NodeIndex(node, n);
      if i.None? { return Some(IndexError); }
      CutOffInPlace(cap, n, i.value);
      assert View(cost) == p.cost && supply[..] == p.supply;
    case SupplyMultiplier(node, factor) =>
      var i := NodeIndex(node, n);
      if i.None? { return Some(IndexError); }
      Store(supply, i.value, Multiplied(supply[i.value], factor));
      assert View(cap) == p.cap && View(cost) == p.cost;
    case DemandDelta(node, delta) =>
      if node !in demandNodes { return Some(NotADemandNode); }
      var i := NodeIndex(node, n);
      if i.None? { return Some(IndexError); }
      Store(supply, i.value, supply[i.value] - delta);
      assert View(cap) == p.cap && View(cost) == p.cost;
    case UnknownKind(_) =>
      failure := Some(UnknownIntervention);
  }

  /** A scenario's edits, applied in place and in order; the first failing edit ends the run. */
  method ApplyInterventions(cap: array2<real>, cost: array2<real>, supply: array<real>, edits: seq<Edit>,
                            demandNodes: seq<int>)
    returns (failure: Option<TwinError>)
    requires cap.Length0 == cap.Length1 == cost.Length0 == cost.Length1 == supply.Length && cap != cost
    modifies cap, cost, supply
    ensures var r := ApplyEdits(old(Held(cap, cost, supply)), edits, demandNodes);
      if failure.Some? then r == Err(failure.value) else r == Ok(Held(cap, cost, supply))
  {
    ghost var start := Held(cap, cost, supply);
    for k := 0 to |edits|
      invariant ApplyEdits(start, edits, demandNodes) == ApplyEdits(Held(cap, cost, supply), edits[k..], demandNodes)
    {
      assert edits[k..][1..] == edits[k + 1..];
      failure := EditInPlace(cap, cost, supply, edits[k], demandNodes);
      if failure.Some? { return; }
    }
    failure := None;
  }

  // ---------------------------------------------------------------- what each edit means

  /** A listed index names one node, counting from the front or, when negative, from the back. */
  lemma NodeIndexNames(i: int, n: nat)
    ensures NodeIndex(i, n).Some? <==> 0 <= i + n && i < n
    ensures NodeIndex(i, n).Some? ==>
      0 <= NodeIndex(i, n).value < n && (NodeIndex(i, n).value == i || NodeIndex(i, n).value == i + n)
  {
  }

  /** A demand spike of `delta` is `delta` more demanded at that node, and nothing else; it is refused at a node that is
      no demand node. */
  lemma SpikeRaisesDemand(p: Problem, node: int, delta: real, demandNodes: seq<int>)
    requires WellShaped(p)
    ensures var n, r := |p.supply|, ApplyEdit(p, DemandDelta(node, delta), demandNodes);
      if node !in demandNodes then r == Err(NotADemandNode)
      else if !(-n <= node < n) then r == Err(IndexError)
      else
        r.Ok? && r.value.cap == p.cap && r.value.cost == p.cost
        && forall k :: 0 <= k < n ==>
          -r.value.supply[k] == -p.supply[k] + (if k == node || k == node + n then delta else 0.0)
  {
    NodeIndexNames(node, |p.supply|);
  }

  /** A multiplier scales the supply of its node and changes nothing else. */
  lemma MultiplierScalesOne(p: Problem, node: int, factor: real, demandNodes: seq<int>)
    requires WellShaped(p)
    ensures var n, r := |p.supply|, ApplyEdit(p, SupplyMultiplier(node, factor), demandNodes);
      if !(-n <= node < n) then r == Err(IndexError)
      else
        r.Ok? && r.value.cap == p.cap && r.value.cost == p.cost
        && forall k :: 0 <= k < n ==>
          r.value.supply[k] == if k == node || k == node + n then factor * p.supply[k] else p.supply[k]
  {
    NodeIndexNames(node, |p.supply|);
  }

  /** An added arc gets its capacity and its price, and nothing else changes. */
  lemma ArcIsAdded(p: Problem, u: int, v: int, capacity: real, price: real, demandNodes: seq<int>)
    requires WellShaped(p)
    ensures var n, r := |p.supply|, ApplyEdit(p, AddArc(u, v, capacity, price), demandNodes);
      if !(-n <= u < n && -n <= v < n) then r == Err(IndexError)
      else
        r.Ok? && r.value.supply == p.supply
        && forall i, j :: 0 <= i < n && 0 <= j < n ==>
          var added := (i == u || i == u + n) && (j == v || j == v + n);
          At(r.value.cap, i, j) == (if added then capacity else At(p.cap, i, j))
          && At(r.value.cost, i, j) == if added then price else At(p.cost, i, j)
  {
    NodeIndexNames(u, |p.supply|);
    NodeIndexNames(v, |p.supply|);
  }

  /** A zeroed node loses every arc, and no other arc changes. */
  lemma NodeIsCutOff(p: Problem, node: int, demandNodes: seq<int>)
    requires WellShaped(p)
    ensures var n, r := |p.supply|, ApplyEdit(p, ZeroNode(node), demandNodes);
      if !(-n <= node < n) then r == Err(IndexError)
      else
        r.Ok? && r.value.supply == p.supply && r.value.cost == p.cost
        && forall i, j :: 0 <= i < n && 0 <= j < n ==>
          At(r.value.cap, i, j) ==
            if i == node || i == node + n || j == node || j == node + n then 0.0 else At(p.cap, i, j)
  {
    NodeIndexNames(node, |p.supply|);
  }

  /** An entry of no known kind is refused, and a scenario is its entries one after another. */
  lemma {:induction false} EditsInOrder(p: Problem, edits: seq<Edit>, last: Edit, demandNodes: seq<int>)
    requires WellShaped(p)
    ensures var before := ApplyEdits(p, edits, demandNodes);
      ApplyEdits(p, edits + [last], demandNodes) ==
        if before.Err? then before
        else if last.UnknownKind? then Err(UnknownIntervention)
        else ApplyEdit(before.value, last, demandNodes)
    decreases |edits|
  {
    if edits == [] {
      assert [last][1..] == [];
    } else {
      assert (edits + [last])[0] == edits[0] && (edits + [last])[1..] == edits[1..] + [last];
      var first := ApplyEdit(p, edits[0], demandNodes);
      if first.Ok? { EditsInOrder(first.value, edits[1..], last, demandNodes); }
    }
  }

  /** A plant that is down delivers nothing: in every feasible flow of the edited network its whole demand goes through
      slack. */
  lemma ZeroedNodeLosesAll(p: Problem, node: int, demandNodes: seq<int>, q: Problem, f: Matrix)
    requires WellShaped(p) && 0 <= node < |p.supply|
    requires ApplyEdit(p, ZeroNode(node), demandNodes).Ok?
    requires IsAugmented(ApplyEdit(p, ZeroNode(node), demandNodes).value, q) && FeasibleFlow(q, f)
    ensures Delivered(f, |p.supply|, node) == 0.0 && SlackInflow(f, |p.supply|, node) == -p.supply[node]
  {
    NodeIsCutOff(p, node, demandNodes);
    KnockedOutNodeLosesAll(ApplyEdit(p, ZeroNode(node), demandNodes).value, q, f, node);
  }

  /** A node whose arcs are all knocked out delivers nothing: its whole demand goes through slack. */
  lemma KnockedOutNodeLosesAll(p: Problem, q: Problem, f: Matrix, node: int)
    requires IsAugmented(p, q) && FeasibleFlow(q, f) && 0 <= node < |p.supply|
    requires forall u :: 0 <= u < |p.supply| ==> At(p.cap, u, node) <= 0.0 && At(p.cap, node, u) <= 0.0
    ensures Delivered(f, |p.supply|, node) == 0.0 && SlackInflow(f, |p.supply|, node) == -p.supply[node]
  {
    var n := |p.supply|;
    forall u | 0 <= u < n ensures At(f, u, node) == 0.0 && At(f, node, u) == 0.0 {
      assert At(q.cap, u, node) == At(p.cap, u, node) && At(q.cap, node, u) == At(p.cap, node, u);
    }
    SumZero(n, u => At(f, u, node));
    SumZero(n, v => At(f, node, v));
    DeliveryPlusSlackIsDemand(p, q, f, node);
  }

  // ---------------------------------------------------------------- one period's diagnostics

  function DemandOf(supply: seq<real>, nodes: seq<int>): (r: seq<real>)
    requires forall j :: 0 <= j < |nodes| ==> 0 <= nodes[j] < |supply|
    ensures |r| == |nodes| && forall j :: 0 <= j < |r| ==> r[j] == -supply[nodes[j]]
  {
    seq(|nodes|, j requires 0 <= j < |nodes| => -supply[nodes[j]])
  }

  function Throughput(f: Matrix, n: nat, nodes: seq<int>): real {
    Sum(|nodes|, j => if 0 <= j < |nodes| then Delivered(f, n, nodes[j]) else 0.0)
  }

  /** Demand unmet in one period: each demand node's shortfall, clipped at zero. */
  function Lost(f: Matrix, n: nat, nodes: seq<int>, demand: seq<real>): real {
    Sum(|nodes|, j => if 0 <= j < |nodes| && j < |demand| then Room(demand[j] - Delivered(f, n, nodes[j])) else 0.0)
  }

  /** The supply vector of a period: the scenario's, with the period's draw added at each supply node. */
  function AddNoise(supply: seq<real>, nodes: seq<int>, noise: seq<real>): (r: seq<real>)
    requires |nodes| == |noise| && forall j :: 0 <= j < |nodes| ==> 0 <= nodes[j] < |supply|
    ensures |r| == |supply| && forall i :: 0 <= i < |r| && i !in nodes ==> r[i] == supply[i]
    decreases |nodes|
  {
    if nodes == [] then supply else
    var k := |nodes| - 1;
    var rest := AddNoise(supply, nodes[..k], noise[..k]);
    rest[nodes[k] := rest[nodes[k]] + noise[k]]
  }

  /** A period's supply is the scenario's, plus every draw made at the node. */
  lemma {:induction false} NoiseAddsUp(supply: seq<real>, nodes: seq<int>, noise: seq<real>, i: int)
    requires |nodes| == |noise| && (forall j :: 0 <= j < |nodes| ==> 0 <= nodes[j] < |supply|) && 0 <= i < |supply|
    ensures AddNoise(supply, nodes, noise)[i] ==
      supply[i] + Sum(|nodes|, j => if 0 <= j < |nodes| && 0 <= j < |noise| && nodes[j] == i then noise[j] else 0.0)
    decreases |nodes|
  {
    if nodes != [] {
      var k := |nodes| - 1;
      NoiseAddsUp(supply, nodes[..k], noise[..k], i);
      SumExt(k,
        j => if 0 <= j < |nodes[..k]| && 0 <= j < |noise[..k]| && nodes[..k][j] == i then noise[..k][j] else 0.0,
        j => if 0 <= j < |nodes| && 0 <= j < |noise| && nodes[j] == i then noise[j] else 0.0);
    }
  }

  function Load(flow: real, capacity: real): real {
    if capacity > 0.0 then flow / capacity else 0.0
  }

  function Utilization(cap: Matrix, f: Matrix, n: nat): (r: Matrix)
    ensures Shape(r, n, n)
    ensures forall u, v :: 0 <= u < n && 0 <= v < n ==> At(r, u, v) == Load(At(f, u, v), At(cap, u, v))
  {
    seq(n, u => seq(n, v => Load(At(f, u, v), At(cap, u, v))))
  }

  predicate RowMajorBefore(a: (int, int), b: (int, int)) {
    a.0 < b.0 || (a.0 == b.0 && a.1 < b.1)
  }

  predicate IsArc(cap: Matrix, n: nat, a: (int, int)) {
    0 <= a.0 < n && 0 <= a.1 < n && At(cap, a.0, a.1) > 0.0
  }

  /** Arc `a` is no more utilized than `b`, and strictly less when it comes first. */
  predicate NoBusier(util: Matrix, a: (int, int), b: (int, int)) {
    if RowMajorBefore(a, b) then At(util, a.0, a.1) < At(util, b.0, b.1) else At(util, a.0, a.1) <= At(util, b.0, b.1)
  }

  /** The first real arc, in row-major order, of greatest utilization; `None` when there is no real arc. */
  ghost predicate IsBottleneck(cap: Matrix, util: Matrix, n: nat, arc: Option<(int, int)>) {
    match arc
    case None => forall a :: !IsArc(cap, n, a)
    case Some(b) =>
      && IsArc(cap, n, b)
      && forall a :: IsArc(cap, n, a) ==> NoBusier(util, a, b)
  }

  ghost predicate BestSoFar(cap: Matrix, util: Matrix, n: nat, best: Option<(int, int)>, upto: (int, int)) {
    match best
    case None => forall a :: IsArc(cap, n, a) ==> !RowMajorBefore(a, upto)
    case Some(b) =>
      && IsArc(cap, n, b) && RowMajorBefore(b, upto)
      && forall a :: IsArc(cap, n, a) && RowMajorBefore(a, upto) ==> NoBusier(util, a, b)
  }

  method FindBottleneck(cap: array2<real>, util: Matrix, n: nat) returns (best: Option<(int, int)>)
    requires cap.Length0 == cap.Length1 == n && Shape(util, n, n)
    ensures IsBottleneck(View(cap), util, n, best)
  {
    best := None;
    ghost var c := View(cap);
    for u := 0 to n
      invariant BestSoFar(c, util, n, best, (u, 0))
    {
      for v := 0 to n
        invariant BestSoFar(c, util, n, best, (u, v))
      {
        assert At(c, u, v) == cap[u, v];
        if cap[u, v] > 0.0 && (best.None? || util[best.value.0][best.value.1] < util[u][v]) {
          best := Some((u, v));
        }
        assert forall a :: IsArc(c, n, a) && RowMajorBefore(a, (u, v + 1)) ==> RowMajorBefore(a, (u, v)) || a == (u, v);
      }
      assert forall a :: IsArc(c, n, a) && RowMajorBefore(a, (u + 1, 0)) ==> RowMajorBefore(a, (u, n));
    }
    assert forall a :: IsArc(c, n, a) ==> RowMajorBefore(a, (n, 0));
  }

  /** When the noise never touches a demand node, lost sales is exactly what the demand nodes draw from slack, net. */
  lemma LostSalesAreSlack(p: Problem, q: Problem, f: Matrix, nodes: seq<int>, demand: seq<real>)
    requires IsAugmented(p, q) && FeasibleFlow(q, f) && |demand| == |nodes|
    requires forall j :: 0 <= j < |nodes| ==> 0 <= nodes[j] < |p.supply| && demand[j] == -p.supply[nodes[j]]
    ensures Lost(f, |p.supply|, nodes, demand) == SlackDrawn(f, |p.supply|, nodes)
  {
    var n := |p.supply|;
    forall j | 0 <= j < |nodes| ensures demand[j] - Delivered(f, n, nodes[j]) == SlackInflow(f, n, nodes[j]) {
      DeliveryPlusSlackIsDemand(p, q, f, nodes[j]);
    }
    SumExt(|nodes|,
      j => if 0 <= j < |nodes| && j < |demand| then Room(demand[j] - Delivered(f, n, nodes[j])) else 0.0,
      j => if 0 <= j < |nodes| then Room(SlackInflow(f, n, nodes[j])) else 0.0);
  }

  function SlackDrawn(f: Matrix, n: nat, nodes: seq<int>): real {
    Sum(|nodes|, j => if 0 <= j < |nodes| then Room(SlackInflow(f, n, nodes[j])) else 0.0)
  }

  /** An arc's utilization is the share of its capacity that its flow takes, which is never more than all of it; an arc
      that does not exist carries nothing. */
  lemma UtilizationIsShare(p: Problem, q: Problem, f: Matrix, u: int, v: int)
    requires IsAugmented(p, q) && FeasibleFlow(q, f) && 0 <= u < |p.supply| && 0 <= v < |p.supply|
    ensures var share := At(Utilization(p.cap, f, |p.supply|), u, v);
      0.0 <= share <= 1.0 && share * Room(At(p.cap, u, v)) == At(f, u, v)
  {
    assert At(q.cap, u, v) == At(p.cap, u, v);
    assert 0.0 <= At(f, u, v) <= Room(At(q.cap, u, v));
    if At(p.cap, u, v) > 0.0 { Share(At(f, u, v), At(p.cap, u, v)); }
  }

  lemma Share(x: real, c: real)
    requires 0.0 <= x <= c && c > 0.0
    ensures 0.0 <= x / c <= 1.0 && (x / c) * c == x
  {
  }

  /** The reported figure is the greatest utilization of any real arc, or zero when there is none. */
  lemma BusiestIsGreatest(cap: Matrix, util: Matrix, n: nat, arc: Option<(int, int)>)
    requires IsBottleneck(cap, util, n, arc)
    ensures forall a :: IsArc(cap, n, a) ==> At(util, a.0, a.1) <= BusiestLoad(util, arc)
    ensures if exists a :: IsArc(cap, n, a) then
        exists a :: IsArc(cap, n, a) && At(util, a.0, a.1) == BusiestLoad(util, arc)
      else BusiestLoad(util, arc) == 0.0
  {
    if arc.Some? { assert IsArc(cap, n, arc.value); }
  }

  /** What the demand nodes keep and what they draw from slack, net, is together what they demand. */
  lemma ThroughputPlusSlackIsDemand(p: Problem, q: Problem, f: Matrix, nodes: seq<int>)
    requires IsAugmented(p, q) && FeasibleFlow(q, f) && NodesWithin(nodes, |p.supply|)
    ensures Throughput(f, |p.supply|, nodes)
      + Sum(|nodes|, j => if 0 <= j < |nodes| then SlackInflow(f, |p.supply|, nodes[j]) else 0.0)
      == Sum(|nodes|, j => if 0 <= j < |nodes| && 0 <= nodes[j] < |p.supply| then -p.supply[nodes[j]] else 0.0)
  {
    var n := |p.supply|;
    var kept := j => if 0 <= j < |nodes| then Delivered(f, n, nodes[j]) else 0.0;
    var drawn := j => if 0 <= j < |nodes| then SlackInflow(f, n, nodes[j]) else 0.0;
    var demand := j => if 0 <= j < |nodes| && 0 <= nodes[j] < |p.supply| then -p.supply[nodes[j]] else 0.0;
    forall j | 0 <= j < |nodes| ensures demand(j) == kept(j) + drawn(j) {
      DeliveryPlusSlackIsDemand(p, q, f, nodes[j]);
    }
    SumAdd(|nodes|, kept, drawn, demand);
  }

  // ---------------------------------------------------------------- the twin

  datatype Report = Report(throughput: seq<real>, lostSales: seq<real>, lostSalesCumulative: seq<real>,
                           demand: seq<real>, utilization: seq<Matrix>, bottleneckArc: Option<(int, int)>,
                           bottleneckUtilization: seq<real>)

  /** What one period's entries say of the flow that solved it. */
  ghost predicate PeriodReported(r: Report, net: Problem, supplyNodes: seq<int>, demandNodes: seq<int>,
                                 noise: seq<real>,
                                 t: nat, q: Problem, f: Matrix)
    requires t < |r.throughput| && t < |r.lostSales| && t < |r.lostSalesCumulative| && t < |r.utilization|
    requires t < |r.bottleneckUtilization|
    requires |supplyNodes| == |noise| && forall j :: 0 <= j < |supplyNodes| ==> 0 <= supplyNodes[j] < |net.supply|
  {
    var n := |net.supply|;
    && IsAugmented(net.(supply := AddNoise(net.supply, supplyNodes, noise)), q) && IsMinCost(q, f)
    && r.throughput[t] == Throughput(f, n, demandNodes)
    && r.lostSales[t] == Lost(f, n, demandNodes, r.demand)
    && r.lostSalesCumulative[t] == r.lostSales[t] + (if t == 0 then 0.0 else r.lostSalesCumulative[t - 1])
    && r.utilization[t] == Utilization(net.cap, f, n)
    && exists arc :: IsBottleneck(net.cap, r.utilization[t], n, arc)
        && r.bottleneckUtilization[t] == BusiestLoad(r.utilization[t], arc)
        && (t + 1 == |r.throughput| ==> r.bottleneckArc == arc)
  }

  function BusiestLoad(util: Matrix, arc: Option<(int, int)>): real {
    if arc.Some? then At(util, arc.value.0, arc.value.1) else 0.0
  }

  predicate NodesWithin(nodes: seq<int>, n: nat) {
    forall j :: 0 <= j < |nodes| ==> 0 <= nodes[j] < n
  }

  /** A network on which every listed node can be found. */
  function WithNodes(net: Problem, supplyNodes: seq<int>, demandNodes: seq<int>): Result<Problem, TwinError> {
    if Positions(supplyNodes, |net.supply|).None? || Positions(demandNodes, |net.supply|).None? then Err(IndexError)
    else Ok(net)
  }

  class PipelineTwin {
    var cap: array2<real>
    var cost: array2<real>
    var supply: array<real>
    var supplyNodes: seq<int>
    var demandNodes: seq<int>
    var interventions: map<string, seq<Edit>>

    ghost predicate Valid()
      reads this
    {
      cap.Length0 == cap.Length1 == cost.Length0 == cost.Length1 == supply.Length && cap != cost
    }

    ghost function Network(): Problem
      reads this, cap, cost, supply
    {
      Held(cap, cost, supply)
    }

    /** The twin keeps its own copies of the arrays it is given. */
    constructor (cap0: array2<real>, cost0: array2<real>, supply0: array<real>, supplyNodes0: seq<int>,
                 demandNodes0: seq<int>, interventions0: map<string, seq<Edit>>)
      requires cap0.Length0 == cap0.Length1 == cost0.Length0 == cost0.Length1 == supply0.Length
      ensures Valid() && fresh(cap) && fresh(cost) && fresh(supply)
      ensures Network() == Held(cap0, cost0, supply0)
      ensures supplyNodes == supplyNodes0 && demandNodes == demandNodes0 && interventions == interventions0
    {
      var n := supply0.Length;
      var c, w, s := CopyNetwork(cap0, cost0, supply0);
      cap, cost, supply := c, w, s;
      supplyNodes, demandNodes, interventions := supplyNodes0, demandNodes0, interventions0;
    }

    /** A new twin with one more named scenario; this one is left as it was. */
    method Scenario(name: string, edits: seq<Edit>) returns (twin: PipelineTwin)
      requires Valid()
      ensures fresh(twin) && twin.Valid() && twin.Network() == Network()
      ensures twin.supplyNodes == supplyNodes && twin.demandNodes == demandNodes
      ensures twin.interventions == interventions[name := edits]
    {
      twin := new PipelineTwin(cap, cost, supply, supplyNodes, demandNodes, interventions[name := edits]);
    }

    /** The network a run solves against: this twin's, or a registered scenario's; otherwise the error that the run
        raises. */
    ghost function RunNetwork(nPeriods: int, scenario: Option<string>): Result<Problem, TwinError>
      requires Valid()
      reads this, cap, cost, supply
    {
      if nPeriods < 1 then Err(BadPeriods)
      else if scenario.None? then WithNodes(Network(), supplyNodes, demandNodes)
      else if scenario.value !in interventions then Err(UnknownScenario)
      else
        var edited := ApplyEdits(Network(), interventions[scenario.value], demandNodes);
        if edited.Err? then edited else WithNodes(edited.value, supplyNodes, demandNodes)
    }

    /** Step the twin `nPeriods` periods, re-solving the flow each period; `noises` is the draw of each period. */
    method Run(nPeriods: int, scenario: Option<string>, noises: seq<seq<real>>, solve: Problem -> Matrix)
      returns (r: Result<Report, TwinError>)
      requires Valid() && SolvesMinCost(solve)
      requires |noises| >= nPeriods && forall t :: 0 <= t < |noises| ==> |noises[t]| == |supplyNodes|
      ensures r.Err? ==> RunNetwork(nPeriods, scenario) == Err(r.error)
      ensures r.Ok? ==> RunNetwork(nPeriods, scenario).Ok?
      ensures r.Ok? ==>
                var s, d := Positions(supplyNodes, supply.Length), Positions(demandNodes, supply.Length);
                s.Some? && d.Some?
                && ReportsRun(r.value, RunNetwork(nPeriods, scenario).value, s.value, d.value, noises, nPeriods)
    {
      if nPeriods < 1 { return Err(BadPeriods); }
      var c, w, s := CopyNetwork(cap, cost, supply);
      if scenario.Some? {
        if scenario.value !in interventions { return Err(UnknownScenario); }
        var failure := ApplyInterventions(c, w, s, interventions[scenario.value], demandNodes);
        if failure.Some? { return Err(failure.value); }
      }
      var from, to := Positions(supplyNodes, s.Length), Positions(demandNodes, s.Length);
      if from.None? || to.None? { return Err(IndexError); }
      var report := SolvePeriods(c, w, s, from.value, to.value, nPeriods, noises, solve);
      r := Ok(report);
    }
  }

  /** Every period's entries, for the problems and flows of the run. */
  ghost predicate AllReported(r: Report, net: Problem, supplyNodes: seq<int>, demandNodes: seq<int>,
                              noises: seq<seq<real>>, qs: seq<Problem>, fs: seq<Matrix>) {
    && |r.throughput| == |r.lostSales| == |r.lostSalesCumulative| == |qs| == |fs|
    && |r.utilization| == |r.bottleneckUtilization| == |fs|
    && |fs| <= |noises| && NodesWithin(supplyNodes, |net.supply|) && NodesWithin(demandNodes, |net.supply|)
    && (forall t :: 0 <= t < |noises| ==> |noises[t]| == |supplyNodes|)
    && r.demand == DemandOf(net.supply, demandNodes)
    && forall t :: 0 <= t < |fs| ==> PeriodReported(r, net, supplyNodes, demandNodes, noises[t], t, qs[t], fs[t])
  }

  /** `r` reports `n` periods, each from a minimum-cost flow of that period's augmented problem. */
  ghost predicate ReportsRun(r: Report, net: Problem, supplyNodes: seq<int>, demandNodes: seq<int>,
                             noises: seq<seq<real>>, n: int) {
    exists qs, fs :: |qs| == |fs| == n && AllReported(r, net, supplyNodes, demandNodes, noises, qs, fs)
  }

  /** A report with one more period. */
  function Extended(r: Report, through: real, lost: real, total: real, util: Matrix, arc: Option<(int, int)>): Report {
    r.(throughput := r.throughput + [through], lostSales := r.lostSales + [lost],
       lostSalesCumulative := r.lostSalesCumulative + [total], utilization := r.utilization + [util],
       bottleneckArc := arc, bottleneckUtilization := r.bottleneckUtilization + [BusiestLoad(util, arc)])
  }

  function Last(s: seq<real>): real {
    if s == [] then 0.0 else s[|s| - 1]
  }

  lemma ReportExtended(r: Report, r': Report, net: Problem, supplyNodes: seq<int>, demandNodes: seq<int>,
                       noises: seq<seq<real>>, qs: seq<Problem>, fs: seq<Matrix>, q: Problem, f: Matrix, util: Matrix,
                       arc: Option<(int, int)>)
    requires AllReported(r, net, supplyNodes, demandNodes, noises, qs, fs) && |fs| < |noises|
    requires IsAugmented(net.(supply := AddNoise(net.supply, supplyNodes, noises[|fs|])), q) && IsMinCost(q, f)
    requires util == Utilization(net.cap, f, |net.supply|) && IsBottleneck(net.cap, util, |net.supply|, arc)
    requires var lost := Lost(f, |net.supply|, demandNodes, r.demand);
      r' == Extended(r, Throughput(f, |net.supply|, demandNodes), lost, Last(r.lostSalesCumulative) + lost, util, arc)
    ensures AllReported(r', net, supplyNodes, demandNodes, noises, qs + [q], fs + [f])
  {
    var t := |fs|;
    NewPeriodReported(r, r', net, supplyNodes, demandNodes, noises[t], t, q, f, util, arc);
    assert (qs + [q])[t] == q && (fs + [f])[t] == f;
    forall i | 0 <= i < t ensures PeriodReported(r', net, supplyNodes, demandNodes, noises[i], i, qs[i], fs[i]) {
      EarlierPeriodStays(r, r', net, supplyNodes, demandNodes, noises, qs, fs, i);
    }
  }

  lemma NewPeriodReported(r: Report, r': Report, net: Problem, supplyNodes: seq<int>, demandNodes: seq<int>,
                          noise: seq<real>, t: nat, q: Problem, f: Matrix, util: Matrix, arc: Option<(int, int)>)
    requires |r.throughput| == |r.lostSales| == |r.lostSalesCumulative| == t
    requires |r.utilization| == |r.bottleneckUtilization| == t
    requires |supplyNodes| == |noise| && NodesWithin(supplyNodes, |net.supply|)
    requires IsAugmented(net.(supply := AddNoise(net.supply, supplyNodes, noise)), q) && IsMinCost(q, f)
    requires util == Utilization(net.cap, f, |net.supply|) && IsBottleneck(net.cap, util, |net.supply|, arc)
    requires var lost := Lost(f, |net.supply|, demandNodes, r.demand);
      r' == Extended(r, Throughput(f, |net.supply|, demandNodes), lost, Last(r.lostSalesCumulative) + lost, util, arc)
    ensures PeriodReported(r', net, supplyNodes, demandNodes, noise, t, q, f)
  {
    var lost := Lost(f, |net.supply|, demandNodes, r.demand);
    NewEntries(r, Throughput(f, |net.supply|, demandNodes), lost, Last(r.lostSalesCumulative) + lost, util, arc, t);
    assert IsBottleneck(net.cap, r'.utilization[t], |net.supply|, arc);
  }

  /** The entries that a report gains with a period. */
  lemma NewEntries(r: Report, through: real, lost: real, total: real, util: Matrix, arc: Option<(int, int)>, t: nat)
    requires |r.throughput| == |r.lostSales| == |r.lostSalesCumulative| == t
    requires |r.utilization| == |r.bottleneckUtilization| == t
    ensures var r' := Extended(r, through, lost, total, util, arc);
      r'.throughput == r.throughput + [through] && r'.lostSales[t] == lost && r'.demand == r.demand
      && |r'.lostSales| == |r'.lostSalesCumulative| == |r'.utilization| == |r'.bottleneckUtilization| == t + 1
      && r'.throughput[t] == through && r'.utilization[t] == util && r'.bottleneckArc == arc
      && r'.bottleneckUtilization[t] == BusiestLoad(util, arc) && r'.lostSalesCumulative[t] == total
      && (t > 0 ==> r'.lostSalesCumulative[t - 1] == Last(r.lostSalesCumulative))
  {
  }

  lemma EarlierPeriodStays(r: Report, r': Report, net: Problem, supplyNodes: seq<int>, demandNodes: seq<int>,
                           noises: seq<seq<real>>, qs: seq<Problem>, fs: seq<Matrix>, i: nat)
    requires AllReported(r, net, supplyNodes, demandNodes, noises, qs, fs) && i < |fs| < |noises|
    requires exists through, lost, total, util, arc :: r' == Extended(r, through, lost, total, util, arc)
    ensures PeriodReported(r', net, supplyNodes, demandNodes, noises[i], i, qs[i], fs[i])
  {
    assert PeriodReported(r, net, supplyNodes, demandNodes, noises[i], i, qs[i], fs[i]);
    var earlier :| IsBottleneck(net.cap, r.utilization[i], |net.supply|, earlier)
      && r.bottleneckUtilization[i] == BusiestLoad(r.utilization[i], earlier)
      && (i + 1 == |r.throughput| ==> r.bottleneckArc == earlier);
    assert IsBottleneck(net.cap, r'.utilization[i], |net.supply|, earlier);
  }

  /** Solve one more period and append its diagnostics to the report. */
  method ReportPeriod(cap: array2<real>, cost: array2<real>, supply: array<real>, supplyNodes: seq<int>,
                      demandNodes: seq<int>, noise: seq<real>, solve: Problem -> Matrix, r0: Report, lostTotal0: real,
                      ghost noises: seq<seq<real>>, ghost qs: seq<Problem>, ghost fs: seq<Matrix>)
    returns (r: Report, lostTotal: real, ghost q: Problem, ghost f: Matrix)
    requires cap.Length0 == cap.Length1 == cost.Length0 == cost.Length1 == supply.Length && SolvesMinCost(solve)
    requires AllReported(r0, Held(cap, cost, supply), supplyNodes, demandNodes, noises, qs, fs)
    requires |fs| < |noises| && noise == noises[|fs|] && lostTotal0 == Last(r0.lostSalesCumulative)
    ensures AllReported(r, Held(cap, cost, supply), supplyNodes, demandNodes, noises, qs + [q], fs + [f])
    ensures lostTotal == Last(r.lostSalesCumulative)
  {
    ghost var net := Held(cap, cost, supply);
    var flow, util, arc;
    flow, util, arc, q := SolvePeriod(cap, cost, supply, supplyNodes, noise, solve);
    f := flow;
    r, lostTotal := Append(r0, lostTotal0, flow, supply.Length, demandNodes, util, arc);
    ReportExtended(r0, r, net, supplyNodes, demandNodes, noises, qs, fs, q, flow, util, arc);
  }

  /** The report with the figures of one more flow. */
  method Append(r0: Report, lostTotal0: real, flow: Matrix, n: nat, demandNodes: seq<int>, util: Matrix,
                arc: Option<(int, int)>)
    returns (r: Report, lostTotal: real)
    ensures var lost := Lost(flow, n, demandNodes, r0.demand);
      lostTotal == lostTotal0 + lost && r == Extended(r0, Throughput(flow, n, demandNodes), lost, lostTotal, util, arc)
    ensures lostTotal == Last(r.lostSalesCumulative)
  {
    var shortfall := Lost(flow, n, demandNodes, r0.demand);
    lostTotal := lostTotal0 + shortfall;
    r := Extended(r0, Throughput(flow, n, demandNodes), shortfall, lostTotal, util, arc);
  }

  method SolvePeriods(cap: array2<real>, cost: array2<real>, supply: array<real>, supplyNodes: seq<int>,
                      demandNodes: seq<int>, nPeriods: nat, noises: seq<seq<real>>, solve: Problem -> Matrix)
    returns (r: Report)
    requires cap.Length0 == cap.Length1 == cost.Length0 == cost.Length1 == supply.Length && SolvesMinCost(solve)
    requires NodesWithin(supplyNodes, supply.Length) && NodesWithin(demandNodes, supply.Length)
    requires |noises| >= nPeriods && forall t :: 0 <= t < |noises| ==> |noises[t]| == |supplyNodes|
    ensures ReportsRun(r, Held(cap, cost, supply), supplyNodes, demandNodes, noises, nPeriods)
  {
    ghost var net := Held(cap, cost, supply);
    r := Report([], [], [], DemandOf(supply[..], demandNodes), [], None, []);
    ghost var qs: seq<Problem>, fs: seq<Matrix> := [], [];
    var lostTotal := 0.0;
    for t := 0 to nPeriods
      invariant Held(cap, cost, supply) == net && |qs| == |fs| == t
      invariant AllReported(r, net, supplyNodes, demandNodes, noises, qs, fs)
      invariant lostTotal == Last(r.lostSalesCumulative)
    {
      ghost var q, f;
      r, lostTotal, q, f := ReportPeriod(
        cap, cost, supply, supplyNodes, demandNodes, noises[t], solve, r, lostTotal, noises, qs, fs);
      qs, fs := qs + [q], fs + [f];
    }
  }

  // ---------------------------------------------------------------- what a whole run reports

  /** A scenario that ends in a demand spike reports, at that node, exactly so much more demand than without it. */
  lemma SpikeIsReported(r: Report, spiked: Report, net: Problem, edits: seq<Edit>, node: int, delta: real,
                        listed: seq<int>, supplyNodes: seq<int>, demandNodes: seq<int>, noises: seq<seq<real>>, n: int,
                        noises': seq<seq<real>>, n': int)
    requires WellShaped(net) && ApplyEdits(net, edits, listed).Ok?
    requires ApplyEdits(net, edits + [DemandDelta(node, delta)], listed).Ok?
    requires ReportsRun(r, ApplyEdits(net, edits, listed).value, supplyNodes, demandNodes, noises, n)
    requires ReportsRun(spiked, ApplyEdits(net, edits + [DemandDelta(node, delta)], listed).value, supplyNodes,
               demandNodes, noises', n')
    ensures |spiked.demand| == |r.demand| == |demandNodes|
    ensures forall j :: 0 <= j < |demandNodes| ==>
      spiked.demand[j] ==
        r.demand[j] + (if demandNodes[j] == node || demandNodes[j] == node + |net.supply| then delta else 0.0)
  {
    EditsInOrder(net, edits, DemandDelta(node, delta), listed);
    SpikeRaisesDemand(ApplyEdits(net, edits, listed).value, node, delta, listed);
  }

  /** When no supply node is a demand node, each period's lost sales is what its demand nodes drew from slack, net, and
      the cumulative series is the running total of those draws. */
  lemma LostSalesOverRun(r: Report, net: Problem, supplyNodes: seq<int>, demandNodes: seq<int>,
                         noises: seq<seq<real>>, qs: seq<Problem>, fs: seq<Matrix>, t: nat)
    requires AllReported(r, net, supplyNodes, demandNodes, noises, qs, fs) && t < |fs|
    requires forall d :: d in demandNodes ==> d !in supplyNodes
    ensures r.lostSales[t] == SlackDrawn(fs[t], |net.supply|, demandNodes)
    ensures r.lostSalesCumulative[t] == Sum(t + 1, SlackSeries(fs, |net.supply|, demandNodes))
  {
    var series := SlackSeries(fs, |net.supply|, demandNodes);
    forall i | 0 <= i <= t
      ensures r.lostSales[i] == series(i) && Accrues(r.lostSalesCumulative, r.lostSales, i)
    {
      LostSalesOfPeriod(r, net, supplyNodes, demandNodes, noises, qs, fs, i);
      RunningTotal(r, net, supplyNodes, demandNodes, noises, qs, fs, i);
    }
    AccruedIsSum(r.lostSalesCumulative, r.lostSales, series, t);
  }

  predicate Accrues(total: seq<real>, part: seq<real>, i: nat)
    requires i < |total| && i < |part|
  {
    total[i] == part[i] + (if i == 0 then 0.0 else total[i - 1])
  }

  lemma {:induction false} AccruedIsSum(total: seq<real>, part: seq<real>, f: int -> real, t: nat)
    requires t < |total| && t < |part|
    requires forall i :: 0 <= i <= t ==> part[i] == f(i) && Accrues(total, part, i)
    ensures total[t] == Sum(t + 1, f)
  {
    assert Accrues(total, part, t);
    if t > 0 { AccruedIsSum(total, part, f, t - 1); }
  }

  /** What the demand nodes draw from slack, period by period. */
  function SlackSeries(fs: seq<Matrix>, n: nat, nodes: seq<int>): int -> real {
    i => if 0 <= i < |fs| then SlackDrawn(fs[i], n, nodes) else 0.0
  }

  lemma RunningTotal(r: Report, net: Problem, supplyNodes: seq<int>, demandNodes: seq<int>, noises: seq<seq<real>>,
                     qs: seq<Problem>, fs: seq<Matrix>, t: nat)
    requires AllReported(r, net, supplyNodes, demandNodes, noises, qs, fs) && t < |fs|
    ensures Accrues(r.lostSalesCumulative, r.lostSales, t)
  {
    assert PeriodReported(r, net, supplyNodes, demandNodes, noises[t], t, qs[t], fs[t]);
  }

  lemma LostSalesOfPeriod(r: Report, net: Problem, supplyNodes: seq<int>, demandNodes: seq<int>,
                          noises: seq<seq<real>>, qs: seq<Problem>, fs: seq<Matrix>, t: nat)
    requires AllReported(r, net, supplyNodes, demandNodes, noises, qs, fs) && t < |fs|
    requires forall d :: d in demandNodes ==> d !in supplyNodes
    ensures r.lostSales[t] == SlackDrawn(fs[t], |net.supply|, demandNodes)
  {
    assert PeriodReported(r, net, supplyNodes, demandNodes, noises[t], t, qs[t], fs[t]);
    var p := net.(supply := AddNoise(net.supply, supplyNodes, noises[t]));
    forall j | 0 <= j < |demandNodes| ensures r.demand[j] == -p.supply[demandNodes[j]] {
      assert demandNodes[j] in demandNodes;
    }
    LostSalesAreSlack(p, qs[t], fs[t], demandNodes, r.demand);
  }

  method CopyNetwork(cap: array2<real>, cost: array2<real>, supply: array<real>)
    returns (c: array2<real>, w: array2<real>, s: array<real>)
    requires cap.Length0 == cap.Length1 == cost.Length0 == cost.Length1 == supply.Length
    ensures fresh(c) && fresh(w) && fresh(s) && c != w
    ensures c.Length0 == c.Length1 == w.Length0 == w.Length1 == s.Length
    ensures Held(c, w, s) == Held(cap, cost, supply)
  {
    var n := supply.Length;
    c := new real[n, n]((i, j) requires 0 <= i < n && 0 <= j < n reads cap => cap[i, j]);
    w := new real[n, n]((i, j) requires 0 <= i < n && 0 <= j < n reads cost => cost[i, j]);
    s := new real[n](i requires 0 <= i < n reads supply => supply[i]);
    MatrixExt(View(c), View(cap), n, n);
    MatrixExt(View(w), View(cost), n, n);
    assert s[..] == supply[..];
  }

  /** The period's supply: a copy of the scenario's, with the draw added in place at each supply node. */
  method PeriodSupply(supply: array<real>, nodes: seq<int>, noise: seq<real>) returns (s: array<real>)
    requires |nodes| == |noise| && NodesWithin(nodes, supply.Length)
    ensures fresh(s) && s[..] == AddNoise(supply[..], nodes, noise)
  {
    s := new real[supply.Length](i requires 0 <= i < supply.Length reads supply => supply[i]);
    assert s[..] == supply[..];
    for i := 0 to |nodes|
      invariant s[..] == AddNoise(supply[..], nodes[..i], noise[..i])
    {
      assert nodes[..i + 1][..i] == nodes[..i] && noise[..i + 1][..i] == noise[..i];
      s[nodes[i]] := s[nodes[i]] + noise[i];
    }
    assert nodes[..|nodes|] == nodes && noise[..|noise|] == noise;
  }

  /** Solve one period and read its diagnostics off the flow. */
  method SolvePeriod(cap: array2<real>, cost: array2<real>, supply: array<real>, supplyNodes: seq<int>,
                     noise: seq<real>,
                     solve: Problem -> Matrix)
    returns (f: Matrix, util: Matrix, arc: Option<(int, int)>, ghost q: Problem)
    requires cap.Length0 == cap.Length1 == cost.Length0 == cost.Length1 == supply.Length
    requires |supplyNodes| == |noise| && NodesWithin(supplyNodes, supply.Length) && SolvesMinCost(solve)
    ensures IsAugmented(Held(cap, cost, supply).(supply := AddNoise(supply[..], supplyNodes, noise)), q)
      && IsMinCost(q, f)
    ensures util == Utilization(View(cap), f, supply.Length) && IsBottleneck(View(cap), util, supply.Length, arc)
  {
    var n := supply.Length;
    var s := PeriodSupply(supply, supplyNodes, noise);
    var capExt, costExt, supplyExt := AugmentWithSlack(cap, cost, s);
    var problem := Problem(ToMatrix(capExt), ToMatrix(costExt), supplyExt[..]);
    q := problem;
    AugmentedIsFeasible(Problem(View(cap), View(cost), s[..]), q);
    f := solve(problem);
    util := Utilization(ToMatrix(cap), f, n);
    arc := FindBottleneck(cap, util, n);
  }

  function ToMatrix(a: array2<real>): (m: Matrix)
    reads a
    ensures m == View(a)
  {
    var m := seq(a.Length0, i requires 0 <= i < a.Length0 reads a =>
      seq(a.Length1, j requires 0 <= j < a.Length1 reads a => a[i, j]));
    MatrixExt(m, View(a), a.Length0, a.Length1);
    m
  }
}
