/**
 * Maximum-weight closure by one minimum cut (Picard's reduction).
 *
 * Items are numbered 0 .. n-1; node n is the source and node n+1 the sink.
 */
module Closure {
  import opened Numbers
  import opened Outcomes
  import opened Sums
  import opened Matrices
  import opened MaxFlow

  datatype ClosureError = NotFinite | BadPair

  // ---------------------------------------------------------------- what a closure is

  predicate Closed(precedence: seq<(int, int)>, items: set<int>) {
    forall p :: p in precedence && p.0 in items ==> p.1 in items
  }

  predicate InRange(n: nat, precedence: seq<(int, int)>) {
    forall p :: p in precedence ==> 0 <= p.0 < n && 0 <= p.1 < n
  }

  function Selected(mask: seq<bool>): (r: set<int>)
    ensures forall i :: i in r <==> 0 <= i < |mask| && mask[i]
  {
    set i | 0 <= i < |mask| && mask[i]
  }

  /** The total value of a selection. */
  function Worth(value: seq<real>, items: set<int>): real {
    Sum(|value|, i => if 0 <= i < |value| && i in items then value[i] else 0.0)
  }

  function Magnitude(value: seq<real>): real {
    Sum(|value|, i => if 0 <= i < |value| then Abs(value[i]) else 0.0)
  }

  /** The total of the positive values: the worth of everything, were costs free. */
  function Gains(value: seq<real>): real {
    Sum(|value|, i => if 0 <= i < |value| && value[i] > 0.0 then value[i] else 0.0)
  }

  // ---------------------------------------------------------------- the network

  function NetworkCell(value: seq<real>, precedence: seq<(int, int)>, bigM: real, u: int, v: int): real {
    var n := |value|;
    if u == n && 0 <= v < n then (if value[v] > 0.0 then value[v] else 0.0)
    else if v == n + 1 && 0 <= u < n then (if value[u] < 0.0 then -value[u] else 0.0)
    else if (u, v) in precedence then bigM
    else 0.0
  }

  ghost predicate IsNetwork(value: seq<real>, precedence: seq<(int, int)>, bigM: real, cap: Matrix) {
    && Shape(cap, |value| + 2, |value| + 2)
    && forall u, v :: 0 <= u < |value| + 2 && 0 <= v < |value| + 2 ==>
         At(cap, u, v) == NetworkCell(value, precedence, bigM, u, v)
  }

  function WithSource(n: nat, items: set<int>): set<int> {
    items + {n}
  }

  function NodeLeaves(value: seq<real>, items: set<int>, u: int): real {
    if u == |value| then Sum(|value|, v => if 0 <= v < |value| && v !in items && value[v] > 0.0 then value[v] else 0.0)
    else if 0 <= u < |value| && u in items && value[u] < 0.0 then -value[u]
    else 0.0
  }

  lemma TwoMore(n: nat, f: int -> real)
    ensures Sum(n + 2, f) == Sum(n, f) + f(n) + f(n + 1)
  {
    assert Sum(n + 1, f) == Sum(n, f) + f(n);
  }

  /** What leaves node `u` of the source side: its own cost, or the gains forgone, plus any severed precedence arc. */
  lemma RowLeaves(value: seq<real>, precedence: seq<(int, int)>, bigM: real, cap: Matrix, items: set<int>, u: int)
    requires IsNetwork(value, precedence, bigM, cap) && InRange(|value|, precedence) && bigM >= 0.0
    requires (forall i :: i in items ==> 0 <= i < |value|) && 0 <= u < |value| + 2
    ensures RowSum(|value| + 2, Crossing(cap, WithSource(|value|, items)), u) >= NodeLeaves(value, items, u)
    ensures Closed(precedence, items) ==>
              RowSum(|value| + 2, Crossing(cap, WithSource(|value|, items)), u) == NodeLeaves(value, items, u)
  {
    var n := |value|;
    var side := WithSource(n, items);
    var f := Crossing(cap, side);
    var row := v => f(u, v);
    TwoMore(n, row);
    if u == n {
      SumExt(n, row, v => if 0 <= v < n && v !in items && value[v] > 0.0 then value[v] else 0.0);
    } else if u in items {
      assert row(n) == 0.0;
      SumNonNeg(n, row);
      if Closed(precedence, items) {
        forall v | 0 <= v < n ensures row(v) == 0.0 {
          if v !in items { assert (u, v) !in precedence; }
        }
        SumZero(n, row);
      }
    } else {
      SumZero(n, row);
    }
  }

  /** The cut around a selection costs the gains forgone plus the costs paid, and more only if it severs a precedence
      arc. */
  lemma CutIsForgoneWorth(value: seq<real>, precedence: seq<(int, int)>, bigM: real, cap: Matrix, items: set<int>)
    requires IsNetwork(value, precedence, bigM, cap) && InRange(|value|, precedence) && bigM >= 0.0
    requires forall i :: i in items ==> 0 <= i < |value|
    ensures CutCapacity(cap, |value| + 2, WithSource(|value|, items)) >= Gains(value) - Worth(value, items)
    ensures Closed(precedence, items) ==>
              CutCapacity(cap, |value| + 2, WithSource(|value|, items)) == Gains(value) - Worth(value, items)
  {
    var n := |value|;
    var f := Crossing(cap, WithSource(n, items));
    var rows, leaves := u => RowSum(n + 2, f, u), u => NodeLeaves(value, items, u);
    forall u | 0 <= u < n + 2 ensures rows(u) >= leaves(u) && (Closed(precedence, items) ==> rows(u) == leaves(u)) {
      RowLeaves(value, precedence, bigM, cap, items, u);
    }
    SumLe(n + 2, leaves, rows);
    if Closed(precedence, items) { SumExt(n + 2, leaves, rows); }
    LeavesTotal(value, items);
  }

  lemma LeavesTotal(value: seq<real>, items: set<int>)
    ensures Sum(|value| + 2, u => NodeLeaves(value, items, u)) == Gains(value) - Worth(value, items)
  {
    var n := |value|;
    var leaves := u => NodeLeaves(value, items, u);
    var forgone := v => if 0 <= v < n && v !in items && value[v] > 0.0 then value[v] else 0.0;
    var worth := i => if 0 <= i < n && i in items then value[i] else 0.0;
    var gains := i => if 0 <= i < n && value[i] > 0.0 then value[i] else 0.0;
    var both := i => leaves(i) + forgone(i);
    TwoMore(n, leaves);
    SumAdd(n, leaves, forgone, both);
    SumSub(n, gains, worth, both);
    SumExt(n, forgone, v => if 0 <= v < |value| && v !in items && value[v] > 0.0 then value[v] else 0.0);
    SumExt(n, worth, i => if 0 <= i < |value| && i in items then value[i] else 0.0);
    SumExt(n, gains, i => if 0 <= i < |value| && value[i] > 0.0 then value[i] else 0.0);
  }

  lemma GainsAtMostMagnitude(value: seq<real>)
    ensures 0.0 <= Gains(value) <= Magnitude(value)
  {
    var gains := i => if 0 <= i < |value| && value[i] > 0.0 then value[i] else 0.0;
    SumLe(|value|, gains, i => if 0 <= i < |value| then Abs(value[i]) else 0.0);
    SumNonNeg(|value|, gains);
  }

  // ---------------------------------------------------------------- Picard's theorem

  /** The cut around the source alone costs all the gains. */
  lemma SourceAlone(value: seq<real>, precedence: seq<(int, int)>, cap: Matrix)
    requires IsNetwork(value, precedence, Magnitude(value) + 1.0, cap) && InRange(|value|, precedence)
    ensures CutCapacity(cap, |value| + 2, {|value|}) == Gains(value)
  {
    var nothing: set<int> := {};
    GainsAtMostMagnitude(value);
    CutIsForgoneWorth(value, precedence, Magnitude(value) + 1.0, cap, nothing);
    SumZero(|value|, i => if 0 <= i < |value| && i in nothing then value[i] else 0.0);
    assert WithSource(|value|, nothing) == {|value|};
  }

  /** A crossing arc costs no more than its cut. */
  lemma ArcAtMostCut(cap: Matrix, n: nat, side: set<int>, u: int, v: int)
    requires Capacities(cap, n) && 0 <= u < n && 0 <= v < n && u in side && v !in side
    ensures At(cap, u, v) <= CutCapacity(cap, n, side)
  {
    var f := Crossing(cap, side);
    forall x | 0 <= x < n ensures RowSum(n, f, x) >= 0.0 { SumNonNeg(n, y => f(x, y)); }
    SumAtLeastTerm(n, v, y => f(u, y));
    SumAtLeastTerm(n, u, x => RowSum(n, f, x));
  }

  /** Picard's theorem for an exact minimum cut: it severs no precedence arc, and the items on its source side are a
      best closure. */
  lemma ExactMinimumCutIsBest(value: seq<real>, precedence: seq<(int, int)>, cap: Matrix, items: set<int>)
    requires IsNetwork(value, precedence, Magnitude(value) + 1.0, cap) && InRange(|value|, precedence)
    requires forall i :: i in items ==> 0 <= i < |value|
    requires NoCutCheaper(cap, |value| + 2, |value|, |value| + 1,
               CutCapacity(cap, |value| + 2, WithSource(|value|, items)))
    ensures IsBestClosure(value, precedence, items, 0.0)
  {
    var n, side := |value|, WithSource(|value|, items);
    GainsAtMostMagnitude(value);
    SourceAlone(value, precedence, cap);
    NetworkCapacities(value, precedence, Magnitude(value) + 1.0, cap);
    assert IsCut(n + 2, n, n + 1, {n});
    forall p | p in precedence && p.0 in items ensures p.1 in items {
      assert p == (p.0, p.1) && At(cap, p.0, p.1) == Magnitude(value) + 1.0;
      if p.1 !in items { ArcAtMostCut(cap, n + 2, side, p.0, p.1); }
    }
    CheapCutIsBest(value, precedence, cap, items, 0.0);
  }

  /** The finite big-M is enough: a source side that severs no arc dearer than some cut is a closure. */
  lemma BigMNeverSevered(value: seq<real>, precedence: seq<(int, int)>, cap: Matrix, items: set<int>)
    requires IsNetwork(value, precedence, Magnitude(value) + 1.0, cap) && InRange(|value|, precedence)
    requires NeverSevered(cap, |value| + 2, |value|, |value| + 1, WithSource(|value|, items))
    ensures Closed(precedence, items)
  {
    var n := |value|;
    GainsAtMostMagnitude(value);
    SourceAlone(value, precedence, cap);
    var side := WithSource(n, items);
    var aloneCost := CutCapacity(cap, n + 2, {n});
    assert IsCut(n + 2, n, n + 1, {n});
    forall p | p in precedence && p.0 in items ensures p.1 in items {
      var u, v := p.0, p.1;
      assert p == (u, v);
      assert At(cap, u, v) == Magnitude(value) + 1.0;
      assert u in side && (v !in side ==> At(cap, u, v) <= aloneCost + TOLERANCE);
    }
  }

  ghost predicate NoCutCheaper(cap: Matrix, nodes: nat, s: int, t: int, capacity: real) {
    forall cut :: IsCut(nodes, s, t, cut) ==> capacity <= CutCapacity(cap, nodes, cut)
  }

  /** Picard's theorem, with the slack of the cut carried over: if the source side of a closed selection
      costs at most `eps` more than every cut, then no closed set is worth more than `eps` over it. */
  lemma CutToClosure(value: seq<real>, precedence: seq<(int, int)>, cap: Matrix, items: set<int>, other: set<int>,
                     eps: real)
    requires IsNetwork(value, precedence, Magnitude(value) + 1.0, cap) && InRange(|value|, precedence)
    requires forall i :: i in items || i in other ==> 0 <= i < |value|
    requires Closed(precedence, items) && Closed(precedence, other)
    requires NoCutCheaper(cap, |value| + 2, |value|, |value| + 1,
               CutCapacity(cap, |value| + 2, WithSource(|value|, items)) - eps)
    ensures Worth(value, other) <= Worth(value, items) + eps
  {
    GainsAtMostMagnitude(value);
    CutIsForgoneWorth(value, precedence, Magnitude(value) + 1.0, cap, items);
    CutIsForgoneWorth(value, precedence, Magnitude(value) + 1.0, cap, other);
    assert IsCut(|value| + 2, |value|, |value| + 1, WithSource(|value|, other));
  }

  // ---------------------------------------------------------------- rescaling huge values

  /** The largest finite double. */
  const MAX_FLOAT: real := ((Pow2(53) - 1) * Pow2(971)) as real

  lemma MaxFloatIsLarge()
    ensures MAX_FLOAT >= 1.0
  {
    DoubleAtLeastTwo(53);
    ProductAtLeastOne(Pow2(53) - 1, Pow2(971));
  }

  lemma DoubleAtLeastTwo(k: nat)
    requires k >= 1
    ensures Pow2(k) >= 2
  {
  }

  lemma ProductAtLeastOne(a: nat, b: nat)
    requires a >= 1 && b >= 1
    ensures a * b >= 1
  {
  }

  /** The number of binary digits of `n`: the least power of two beyond it. */
  function BitLength(n: nat): (k: nat)
    ensures n < Pow2(k) && (n > 0 ==> Pow2(k) <= 2 * n)
  {
    if n == 0 then 0 else BitLength(n / 2) + 1
  }

  function Peak(value: seq<real>): (p: real)
    ensures p >= 0.0 && forall i :: 0 <= i < |value| ==> Abs(value[i]) <= p
    ensures value != [] ==> exists i :: 0 <= i < |value| && Abs(value[i]) == p
  {
    if value == [] then 0.0
    else
      var rest, last := Peak(value[..|value| - 1]), Abs(value[|value| - 1]);
      assert forall i :: 0 <= i < |value| - 1 ==> value[i] == value[..|value| - 1][i];
      if rest < last then last else rest
  }

  function AtLeastOne(n: nat): (m: nat)
    ensures m >= 1 && m >= n
  {
    if n < 1 then 1 else n
  }

  /** The power of two by which an instance is scaled down: zero unless the magnitudes could overflow `top`. */
  function Halvings(value: seq<real>, top: real): nat {
    if Peak(value) > top / AtLeastOne(|value|) as real then BitLength(AtLeastOne(|value|) - 1) + 1 else 0
  }

  /** The magnitudes cannot overflow `top` when summed. */
  predicate Moderate(value: seq<real>, top: real) {
    forall i :: 0 <= i < |value| ==> Abs(value[i]) <= top / AtLeastOne(|value|) as real
  }

  /** The one scale that an instance is solved at: as given when its values are moderate, and otherwise down by the one
      power of two that is at least twice and less than four times the number of items. */
  predicate IsScale(value: seq<real>, top: real, k: nat) {
    if Moderate(value, top) then k == 0 else 2 * |value| <= Pow2(k) < 4 * |value|
  }

  lemma HalvingsIsScale(value: seq<real>, top: real)
    requires top > 0.0
    ensures IsScale(value, top, Halvings(value, top))
  {
    var share := top / AtLeastOne(|value|) as real;
    assert Peak(value) > share <==> !Moderate(value, top) by {
      if value != [] {
        var i :| 0 <= i < |value| && Abs(value[i]) == Peak(value);
      }
    }
  }

  lemma {:induction false} ScaleIsUnique(n: nat, j: nat, k: nat)
    requires 2 * n <= Pow2(j) < 4 * n && 2 * n <= Pow2(k) < 4 * n
    ensures j == k
  {
    if j < k { PowersApart(j, k); }
    if k < j { PowersApart(k, j); }
  }

  lemma {:induction false} PowersApart(j: nat, k: nat)
    requires j < k
    ensures 2 * Pow2(j) <= Pow2(k)
  {
    if j < k - 1 { PowersApart(j, k - 1); }
  }

  function Rescaled(value: seq<real>, k: nat): (r: seq<real>)
    ensures |r| == |value| && forall i :: 0 <= i < |value| ==> r[i] == value[i] / Pow2(k) as real
  {
    seq(|value|, i requires 0 <= i < |value| => value[i] / Pow2(k) as real)
  }

  predicate Finite(value: seq<real>, top: real) {
    forall i :: 0 <= i < |value| ==> Abs(value[i]) <= top
  }

  lemma MagnitudeAtMost(value: seq<real>, bound: real)
    requires forall i :: 0 <= i < |value| ==> Abs(value[i]) <= bound
    ensures Magnitude(value) <= |value| as real * bound
  {
    var top := (i: int) => bound;
    SumLe(|value|, i => if 0 <= i < |value| then Abs(value[i]) else 0.0, top);
    SumConst(|value|, bound, top);
  }

  /** After rescaling, the magnitudes sum to a representable number. */
  lemma RescalingIsRepresentable(value: seq<real>, top: real)
    requires top > 0.0 && Finite(value, top)
    ensures Magnitude(Rescaled(value, Halvings(value, top))) <= top
  {
    var scaled, m := Rescaled(value, Halvings(value, top)), AtLeastOne(|value|) as real;
    forall i | 0 <= i < |scaled| ensures Abs(scaled[i]) <= top / m {
      RescaledBound(value, top, i);
    }
    ShareOut(scaled, m, top, top / m);
  }

  /** The least real that rounds to an infinite double: the largest finite double plus half of its last place. */
  const OVERFLOW: real := MAX_FLOAT + Pow2(970) as real

  /** After rescaling, the big-M itself rounds to a finite double. */
  lemma BigMIsRepresentable(value: seq<real>)
    requires Finite(value, MAX_FLOAT)
    ensures Magnitude(Rescaled(value, Halvings(value, MAX_FLOAT))) + 1.0 < OVERFLOW
  {
    MaxFloatIsLarge();
    RescalingIsRepresentable(value, MAX_FLOAT);
  }

  lemma ShareOut(scaled: seq<real>, m: real, top: real, share: real)
    requires m >= 1.0 && m >= |scaled| as real && top > 0.0 && share == top / m
    requires forall i :: 0 <= i < |scaled| ==> Abs(scaled[i]) <= share
    ensures Magnitude(scaled) <= top
  {
    MagnitudeAtMost(scaled, share);
    DivideBound(|scaled| as real, m, top);
  }

  lemma RescaledBound(value: seq<real>, top: real, i: nat)
    requires top > 0.0 && Finite(value, top) && i < |value|
    ensures Abs(Rescaled(value, Halvings(value, top))[i]) <= top / AtLeastOne(|value|) as real
  {
    var n, k := |value|, Halvings(value, top);
    if Peak(value) > top / n as real {
      assert Pow2(k) == 2 * Pow2(k - 1) && Pow2(k) >= n;
      ScaledBound(value[i], top, Pow2(k) as real, n as real);
    } else {
      assert Pow2(k) == 1;
    }
  }

  lemma DivideBound(n: real, m: real, y: real)
    requires m >= 1.0 && 0.0 <= n <= m && y > 0.0
    ensures n * (y / m) <= y
  {
    assert m * (y / m) == y;
    assert y / m > 0.0;
    assert (m - n) * (y / m) >= 0.0;
  }

  lemma ScaledBound(x: real, top: real, p: real, n: real)
    requires Abs(x) <= top && p >= n >= 1.0
    ensures Abs(x / p) <= top / n
  {
    assert Abs(x / p) == Abs(x) / p;
    assert Abs(x) / p <= top / p <= top / n;
  }

  lemma Cancel(x: real, p: real)
    requires p != 0.0
    ensures p * (x / p) == x
  {
  }

  lemma TermBack(x: real, p: real, y: real, counted: bool)
    requires p != 0.0 && y == x / p
    ensures (if counted then x else 0.0) == p * (if counted then y else 0.0)
  {
    Cancel(x, p);
  }

  /** Scaling every value by one positive factor scales the worth of every selection by it. */
  lemma RescaledWorth(value: seq<real>, k: nat, items: set<int>)
    ensures Worth(value, items) == Pow2(k) as real * Worth(Rescaled(value, k), items)
  {
    WorthScales(value, Rescaled(value, k), Pow2(k) as real, items);
  }

  lemma WorthScales(value: seq<real>, scaled: seq<real>, p: real, items: set<int>)
    requires p != 0.0 && |scaled| == |value| && forall i :: 0 <= i < |value| ==> scaled[i] == value[i] / p
    ensures Worth(value, items) == p * Worth(scaled, items)
  {
    var f := i => if 0 <= i < |scaled| && i in items then scaled[i] else 0.0;
    var g := i => if 0 <= i < |value| && i in items then value[i] else 0.0;
    forall i | 0 <= i < |value| ensures g(i) == p * f(i) { TermBack(value[i], p, scaled[i], i in items); }
    SumScale(|value|, p, f, g);
  }

  // ---------------------------------------------------------------- exactness

  /** Every (rescaled) value is a whole number of quanta larger than the solver's tolerance. */
  ghost predicate IsQuantum(value: seq<real>, q: real) {
    q > TOLERANCE && forall i :: 0 <= i < |value| ==> IsMultiple(value[i], q)
  }

  /** The precedence arcs, whose big-M need not be a whole number of quanta: it never limits a flow. */
  function PrecedenceBase(value: seq<real>, precedence: seq<(int, int)>): (int, int) -> real {
    (u, v) => if (u, v) in precedence then Magnitude(value) + 1.0 else 0.0
  }

  lemma NetworkOnGrid(value: seq<real>, precedence: seq<(int, int)>, cap: Matrix, q: real)
    requires IsNetwork(value, precedence, Magnitude(value) + 1.0, cap) && InRange(|value|, precedence)
    requires IsQuantum(value, q)
    ensures OnGrid(cap, |value| + 2, |value|, PrecedenceBase(value, precedence), q)
  {
    var base := PrecedenceBase(value, precedence);
    GainsAtMostMagnitude(value);
    SourceAlone(value, precedence, cap);
    assert 0.0 == Times(0, q);
    forall u, v ensures IsMultiple(At(cap, u, v) - base(u, v), q) {
      if 0 <= u < |value| { MultipleSub(0.0, value[u], q); }
      if 0 <= u < |value| + 2 && 0 <= v < |value| + 2 {
        assert At(cap, u, v) == NetworkCell(value, precedence, Magnitude(value) + 1.0, u, v);
      }
    }
    forall u, v | base(u, v) != 0.0 ensures At(cap, u, v) == Magnitude(value) + 1.0 {
      assert (u, v) in precedence && (u, v).0 < |value| && (u, v).1 < |value|;
    }
  }

  // ---------------------------------------------------------------- the program

  /** The solver's tolerance over every ordered pair of network nodes. */
  function SolverSlack(n: nat): real {
    (n + 2) as real * ((n + 2) as real * TOLERANCE)
  }

  ghost predicate HasQuantum(value: seq<real>) {
    exists q :: IsQuantum(value, q)
  }

  ghost predicate IsBestClosure(value: seq<real>, precedence: seq<(int, int)>, items: set<int>, slack: real) {
    && Closed(precedence, items) && (forall i :: i in items ==> 0 <= i < |value|)
    && forall other :: Closed(precedence, other) && (forall i :: i in other ==> 0 <= i < |value|) ==>
         Worth(value, other) <= Worth(value, items) + slack
  }

  lemma CheapCutIsBest(value: seq<real>, precedence: seq<(int, int)>, cap: Matrix, items: set<int>, slack: real)
    requires IsNetwork(value, precedence, Magnitude(value) + 1.0, cap) && InRange(|value|, precedence)
    requires (forall i :: i in items ==> 0 <= i < |value|) && Closed(precedence, items)
    requires NoCutCheaper(cap, |value| + 2, |value|, |value| + 1,
               CutCapacity(cap, |value| + 2, WithSource(|value|, items)) - slack)
    ensures IsBestClosure(value, precedence, items, slack)
  {
    forall other | Closed(precedence, other) && forall i :: i in other ==> 0 <= i < |value|
      ensures Worth(value, other) <= Worth(value, items) + slack
    {
      CutToClosure(value, precedence, cap, items, other, slack);
    }
  }

  /** The source side of a minimum cut of the network is a best closure of the rescaled instance. */
  lemma MinimumCutIsBest(value: seq<real>, precedence: seq<(int, int)>, cap: Matrix, c: Cut, items: set<int>)
    requires IsNetwork(value, precedence, Magnitude(value) + 1.0, cap) && InRange(|value|, precedence)
    requires IsMinimumCut(cap, |value| + 2, |value|, |value| + 1, c)
    requires WithSource(|value|, items) == Members(c.side) && forall i :: i in items ==> 0 <= i < |value|
    ensures IsBestClosure(value, precedence, items, SolverSlack(|value|))
    ensures HasQuantum(value) ==> IsBestClosure(value, precedence, items, 0.0)
  {
    BigMNeverSevered(value, precedence, cap, items);
    CheapCutIsBest(value, precedence, cap, items, SolverSlack(|value|));
    if HasQuantum(value) {
      var q :| IsQuantum(value, q);
      NetworkOnGrid(value, precedence, cap, q);
      CheapCutIsBest(value, precedence, cap, items, 0.0);
    }
  }

  /** A slack in scaled values, in the original ones. */
  function ScaledUp(k: nat, slack: real): real {
    Pow2(k) as real * slack
  }

  lemma RescaleBack(value: seq<real>, k: nat, precedence: seq<(int, int)>, items: set<int>, slack: real)
    requires IsBestClosure(Rescaled(value, k), precedence, items, slack)
    ensures IsBestClosure(value, precedence, items, ScaledUp(k, slack))
  {
    forall other | Closed(precedence, other) && forall i :: i in other ==> 0 <= i < |value|
      ensures Worth(value, other) <= Worth(value, items) + ScaledUp(k, slack)
    {
      WorthBack(value, k, other, items, slack);
    }
  }

  lemma WorthBack(value: seq<real>, k: nat, other: set<int>, items: set<int>, slack: real)
    requires Worth(Rescaled(value, k), other) <= Worth(Rescaled(value, k), items) + slack
    ensures Worth(value, other) <= Worth(value, items) + ScaledUp(k, slack)
  {
    RescaledWorth(value, k, other);
    RescaledWorth(value, k, items);
    ScaleUp(Pow2(k) as real, Worth(Rescaled(value, k), other), Worth(Rescaled(value, k), items), slack);
  }

  lemma ScaleUp(p: real, a: real, b: real, c: real)
    requires p >= 0.0 && a <= b + c
    ensures p * a <= p * b + p * c
  {
    assert p * (b + c - a) >= 0.0;
  }

  /** Fill the capacity matrix: gains from the source, costs to the sink, big-M on every precedence arc. */
  method BuildNetwork(value: seq<real>, precedence: seq<(int, int)>, bigM: real)
    returns (ok: bool, cap: array2<real>)
    ensures ok <==> InRange(|value|, precedence)
    ensures fresh(cap) && cap.Length0 == cap.Length1 == |value| + 2
    ensures ok ==> IsNetwork(value, precedence, bigM, View(cap))
  {
    var n := |value|;
    var source, sink := n, n + 1;
    cap := new real[n + 2, n + 2]((i, j) => 0.0);
    for b := 0 to n
      invariant forall u, v :: 0 <= u < n + 2 && 0 <= v < n + 2 ==>
                  cap[u, v] ==
                    (if (u == n && v < b) || (v == n + 1 && u < b) then NetworkCell(value, [], bigM, u, v) else 0.0)
    {
      if value[b] > 0.0 {
        cap[source, b] := value[b];
      } else if value[b] < 0.0 {
        cap[b, sink] := -value[b];
      }
    }
    for k := 0 to |precedence|
      invariant InRange(n, precedence[..k])
      invariant forall u, v :: 0 <= u < n + 2 && 0 <= v < n + 2 ==>
                  cap[u, v] == NetworkCell(value, precedence[..k], bigM, u, v)
    {
      var (b, pred) := precedence[k];
      assert precedence[k] == (b, pred) && precedence[..k + 1] == precedence[..k] + [(b, pred)];
      if !(0 <= b < n && 0 <= pred < n) {
        return false, cap;
      }
      cap[b, pred] := bigM;
    }
    assert precedence[..|precedence|] == precedence;
    ok := true;
  }

  lemma NetworkCapacities(value: seq<real>, precedence: seq<(int, int)>, bigM: real, cap: Matrix)
    requires IsNetwork(value, precedence, bigM, cap) && bigM >= 0.0
    ensures Capacities(cap, |value| + 2)
  {
    forall u, v ensures At(cap, u, v) >= 0.0 {
      if 0 <= u < |value| + 2 && 0 <= v < |value| + 2 {
        assert At(cap, u, v) == NetworkCell(value, precedence, bigM, u, v);
      }
    }
  }

  /** The mask of the items among the listed nodes. */
  method MaskOf(n: nat, side: seq<int>) returns (mask: seq<bool>)
    requires forall j :: 0 <= j < |side| ==> 0 <= side[j]
    ensures |mask| == n && forall i :: 0 <= i < n ==> (mask[i] <==> i in side)
  {
    mask := seq(n, i => false);
    for j := 0 to |side|
      invariant |mask| == n && forall i :: 0 <= i < n ==> (mask[i] <==> i in side[..j])
    {
      if side[j] < n { mask := mask[side[j] := true]; }
      assert side[..j + 1] == side[..j] + [side[j]];
    }
    assert side[..|side|] == side;
  }

  lemma MaskSelectsItems(n: nat, c: Cut, mask: seq<bool>)
    requires |mask| == n && (forall i :: 0 <= i < n ==> (mask[i] <==> i in c.side))
    requires IsCut(n + 2, n, n + 1, Members(c.side))
    ensures WithSource(n, Selected(mask)) == Members(c.side)
  {
    assert n in Members(c.side) && n + 1 !in Members(c.side);
    forall i | i in Members(c.side) ensures i in WithSource(n, Selected(mask)) { assert 0 <= i < n + 2; }
  }

  /** Without precedence, an item is on the source side exactly when its value exceeds the tolerance. */
  lemma FreeItemReached(value: seq<real>, cap: Matrix, c: Cut, i: nat)
    requires IsNetwork(value, [], Magnitude(value) + 1.0, cap) && i < |value|
    requires IsMinimumCut(cap, |value| + 2, |value|, |value| + 1, c)
    ensures i in c.side <==> value[i] > TOLERANCE
  {
    var side := Members(c.side);
    if value[i] > TOLERANCE {
      GainReached(value, cap, side, i);
    } else {
      SmallUnsupported(value, cap, side, i);
    }
    assert i in side <==> i in c.side;
  }

  lemma GainReached(value: seq<real>, cap: Matrix, side: set<int>, i: nat)
    requires IsNetwork(value, [], Magnitude(value) + 1.0, cap) && i < |value| && value[i] > TOLERANCE
    requires |value| in side && LeftExhausted(cap, |value| + 2, |value|, |value| + 1, side)
    ensures i in side
  {
    var n := |value|;
    var flow, total :| IsFlow(cap, n + 2, n, n + 1, flow, total)
      && forall u, v :: u in side && 0 <= v < n + 2 && v !in side ==>
           At(cap, u, v) - At(flow, u, v) + At(flow, v, u) <= TOLERANCE;
    NothingThrough(value, cap, flow, total, i);
    assert At(cap, n, i) == NetworkCell(value, [], Magnitude(value) + 1.0, n, i);
    assert At(flow, i, n) >= 0.0;
  }

  lemma SmallUnsupported(value: seq<real>, cap: Matrix, side: set<int>, i: nat)
    requires IsNetwork(value, [], Magnitude(value) + 1.0, cap) && i < |value| && value[i] <= TOLERANCE
    requires IsCut(|value| + 2, |value|, |value| + 1, side) && Supported(cap, |value|, side)
    ensures i !in side
  {
    forall u | u in side ensures At(cap, u, i) + At(cap, i, u) <= TOLERANCE {
      assert At(cap, u, i) == NetworkCell(value, [], Magnitude(value) + 1.0, u, i);
      assert At(cap, i, u) == NetworkCell(value, [], Magnitude(value) + 1.0, i, u);
    }
    assert !HasSupport(cap, side, i);
  }

  lemma FreeItemsReached(value: seq<real>, cap: Matrix, c: Cut, mask: seq<bool>)
    requires IsNetwork(value, [], Magnitude(value) + 1.0, cap) && |mask| == |value|
    requires IsMinimumCut(cap, |value| + 2, |value|, |value| + 1, c)
    requires forall i :: 0 <= i < |value| ==> (mask[i] <==> i in c.side)
    ensures forall i :: 0 <= i < |value| ==> (mask[i] <==> value[i] > TOLERANCE)
  {
    forall i | 0 <= i < |value| ensures mask[i] <==> value[i] > TOLERANCE {
      FreeItemReached(value, cap, c, i);
    }
  }

  /** An item of positive value with no predecessors has no way on, so no flow enters it. */
  lemma NothingThrough(value: seq<real>, cap: Matrix, flow: Matrix, total: real, i: nat)
    requires IsNetwork(value, [], Magnitude(value) + 1.0, cap) && i < |value| && value[i] > 0.0
    requires IsFlow(cap, |value| + 2, |value|, |value| + 1, flow, total)
    ensures At(flow, |value|, i) == 0.0
  {
    var n := |value|;
    forall v | 0 <= v < n + 2 ensures At(flow, i, v) == 0.0 {
      assert At(cap, i, v) == NetworkCell(value, [], Magnitude(value) + 1.0, i, v);
    }
    NothingOut(flow, n + 2, i);
    assert Inflow(flow, n + 2, i) == 0.0;
    InflowAtLeast(flow, n + 2, n, i);
  }

  lemma NothingOut(flow: Matrix, nodes: nat, i: int)
    requires forall v :: 0 <= v < nodes ==> At(flow, i, v) == 0.0
    ensures Outflow(flow, nodes, i) == 0.0
  {
    SumZero(nodes, v => At(flow, i, v));
  }

  lemma InflowAtLeast(flow: Matrix, nodes: nat, u: int, i: int)
    requires (forall v :: At(flow, v, i) >= 0.0) && 0 <= u < nodes
    ensures At(flow, u, i) <= Inflow(flow, nodes, i)
  {
    SumAtLeastTerm(nodes, u, v => At(flow, v, i));
  }

  /** What the mask of an instance solved at scale `2^-k` is: closed, worth as much as any closed set up to the slack,
      worth exactly as much when the scaled values share a quantum above the tolerance. Without precedence it is the
      items whose scaled value exceeds the tolerance. */
  ghost predicate IsAnswer(value: seq<real>, k: nat, precedence: seq<(int, int)>, mask: seq<bool>) {
    && |mask| == |value|
    && IsBestClosure(value, precedence, Selected(mask), ScaledUp(k, SolverSlack(|value|)))
    && (HasQuantum(Rescaled(value, k)) ==> IsBestClosure(value, precedence, Selected(mask), 0.0))
    && (precedence == [] ==> forall i :: 0 <= i < |value| ==> (mask[i] <==> Rescaled(value, k)[i] > TOLERANCE))
  }

  /** The same of an instance solved as it is given. */
  ghost predicate IsAnswerAsGiven(value: seq<real>, precedence: seq<(int, int)>, mask: seq<bool>) {
    && |mask| == |value|
    && IsBestClosure(
         value, precedence, Selected(mask), (|value| + 2) as real * ((|value| + 2) as real * 0.000000000001))
    && (HasQuantum(value) ==> IsBestClosure(value, precedence, Selected(mask), 0.0))
    && (precedence == [] ==> forall i :: 0 <= i < |value| ==> (mask[i] <==> value[i] > 0.000000000001))
  }

  /** The reduction proper, on the instance scaled down by `2^k`. */
  method ClosureByCut(value: seq<real>, k: nat, precedence: seq<(int, int)>) returns (ok: bool, mask: seq<bool>)
    ensures ok <==> InRange(|value|, precedence)
    ensures ok ==> IsAnswer(value, k, precedence, mask)
  {
    var n := |value|;
    var scaled := Rescaled(value, k);
    var bigM := Magnitude(scaled) + 1.0;
    mask := [];
    var cap;
    ok, cap := BuildNetwork(scaled, precedence, bigM);
    if !ok { return; }
    GainsAtMostMagnitude(scaled);
    NetworkCapacities(scaled, precedence, bigM, View(cap));
    var cut := MinimumCut(cap, n, n + 1);
    SideNodes(n, cut.value);
    mask := MaskOf(n, cut.value.side);
    CutGivesClosure(value, k, precedence, View(cap), cut.value, mask);
    // The program re-checks closure here and raises on a violation; the check cannot fail.
    assert Closed(precedence, Selected(mask));
  }

  /** The maximum-weight closure of a precedence relation. */
  method MaximumWeightClosure(value: seq<real>, precedence: seq<(int, int)>)
    returns (r: Result<seq<bool>, ClosureError>)
    ensures r.Ok? <==> Finite(value, MAX_FLOAT) && InRange(|value|, precedence)
    ensures r.Err? ==> r.error == if Finite(value, MAX_FLOAT) then BadPair else NotFinite
    ensures r.Ok? && Moderate(value, MAX_FLOAT) ==> IsAnswerAsGiven(value, precedence, r.value)
    ensures r.Ok? && !Moderate(value, MAX_FLOAT) ==>
      exists k :: 2 * |value| <= Pow2(k) < 4 * |value| && IsAnswer(value, k, precedence, r.value)
  {
    if !Finite(value, MAX_FLOAT) { return Err(NotFinite); }
    var k := Halvings(value, MAX_FLOAT);
    var ok, mask := ClosureByCut(value, k, precedence);
    if ok {
      MaxFloatIsLarge();
      HalvingsIsScale(value, MAX_FLOAT);
      if Moderate(value, MAX_FLOAT) { AnswerAtScaleZero(value, precedence, mask); }
    }
    r := if ok then Ok(mask) else Err(BadPair);
  }

  lemma AnswerAtScaleZero(value: seq<real>, precedence: seq<(int, int)>, mask: seq<bool>)
    requires IsAnswer(value, 0, precedence, mask)
    ensures IsAnswerAsGiven(value, precedence, mask)
  {
    assert Rescaled(value, 0) == value;
    assert ScaledUp(0, SolverSlack(|value|)) == SolverSlack(|value|);
  }

  lemma SideNodes(n: nat, c: Cut)
    requires IsCut(n + 2, n, n + 1, Members(c.side))
    ensures forall j :: 0 <= j < |c.side| ==> 0 <= c.side[j] < n + 2
  {
    forall j | 0 <= j < |c.side| ensures 0 <= c.side[j] < n + 2 { assert c.side[j] in Members(c.side); }
  }

  /** The mask read off the minimum cut of the rescaled network is a best closure of the original instance. */
  lemma CutGivesClosure(value: seq<real>, k: nat, precedence: seq<(int, int)>, cap: Matrix, c: Cut, mask: seq<bool>)
    requires InRange(|value|, precedence) && |mask| == |value|
    requires IsNetwork(Rescaled(value, k), precedence, Magnitude(Rescaled(value, k)) + 1.0, cap)
    requires IsMinimumCut(cap, |value| + 2, |value|, |value| + 1, c)
    requires forall i :: 0 <= i < |value| ==> (mask[i] <==> i in c.side)
    ensures IsAnswer(value, k, precedence, mask)
  {
    CutIsBest(value, k, precedence, cap, c, mask);
    if precedence == [] { FreeItemsReached(Rescaled(value, k), cap, c, mask); }
  }

  lemma CutIsBest(value: seq<real>, k: nat, precedence: seq<(int, int)>, cap: Matrix, c: Cut, mask: seq<bool>)
    requires InRange(|value|, precedence) && |mask| == |value|
    requires IsNetwork(Rescaled(value, k), precedence, Magnitude(Rescaled(value, k)) + 1.0, cap)
    requires IsMinimumCut(cap, |value| + 2, |value|, |value| + 1, c)
    requires forall i :: 0 <= i < |value| ==> (mask[i] <==> i in c.side)
    ensures IsBestClosure(value, precedence, Selected(mask), ScaledUp(k, SolverSlack(|value|)))
    ensures HasQuantum(Rescaled(value, k)) ==> IsBestClosure(value, precedence, Selected(mask), 0.0)
  {
    MaskSelectsItems(|value|, c, mask);
    MinimumCutIsBest(Rescaled(value, k), precedence, cap, c, Selected(mask));
    ClosureOfRescaled(value, k, precedence, Selected(mask));
  }

  lemma ClosureOfRescaled(value: seq<real>, k: nat, precedence: seq<(int, int)>, items: set<int>)
    requires IsBestClosure(Rescaled(value, k), precedence, items, SolverSlack(|value|))
    requires HasQuantum(Rescaled(value, k)) ==> IsBestClosure(Rescaled(value, k), precedence, items, 0.0)
    ensures IsBestClosure(value, precedence, items, ScaledUp(k, SolverSlack(|value|)))
    ensures HasQuantum(Rescaled(value, k)) ==> IsBestClosure(value, precedence, items, 0.0)
  {
    RescaleBack(value, k, precedence, items, SolverSlack(|value|));
    if HasQuantum(Rescaled(value, k)) { RescaleExactly(value, k, precedence, items); }
  }

  lemma RescaleExactly(value: seq<real>, k: nat, precedence: seq<(int, int)>, items: set<int>)
    requires IsBestClosure(Rescaled(value, k), precedence, items, 0.0)
    ensures IsBestClosure(value, precedence, items, 0.0)
  {
    RescaleBack(value, k, precedence, items, 0.0);
    assert ScaledUp(k, 0.0) == 0.0;
  }

  /** Without precedence the answer is optimal exactly when no scaled value is positive and within the tolerance. */
  lemma FreeItemsBestIff(value: seq<real>, k: nat, mask: seq<bool>)
    requires IsAnswer(value, k, [], mask)
    ensures IsBestClosure(value, [], Selected(mask), 0.0) <==>
      forall i :: 0 <= i < |value| ==> !(0.0 < Rescaled(value, k)[i] <= TOLERANCE)
  {
    if i :| 0 <= i < |value| && 0.0 < Rescaled(value, k)[i] <= TOLERANCE {
      SignKept(value, k, i);
      OneMoreItem(value, Selected(mask), i);
      assert Closed([], Selected(mask) + {i});
    } else {
      forall other ensures Worth(value, other) <= Worth(value, Selected(mask)) {
        GainsOnly(value, k, mask, other);
      }
    }
  }

  lemma SignKept(value: seq<real>, k: nat, i: nat)
    requires i < |value|
    ensures value[i] > 0.0 <==> Rescaled(value, k)[i] > 0.0
  {
    Cancel(value[i], Pow2(k) as real);
  }

  lemma OneMoreItem(value: seq<real>, items: set<int>, i: nat)
    requires i < |value| && i !in items
    ensures Worth(value, items + {i}) == Worth(value, items) + value[i]
  {
    var f := j => if 0 <= j < |value| && j in items then value[j] else 0.0;
    var g := j => if 0 <= j < |value| && j in items + {i} then value[j] else 0.0;
    SumUpdate(|value|, i, f, g);
  }

  /** A selection of exactly the items of positive value is worth as much as any. */
  lemma GainsOnly(value: seq<real>, k: nat, mask: seq<bool>, other: set<int>)
    requires |mask| == |value|
    requires forall i :: 0 <= i < |value| ==> (mask[i] <==> Rescaled(value, k)[i] > TOLERANCE)
    requires forall i :: 0 <= i < |value| ==> !(0.0 < Rescaled(value, k)[i] <= TOLERANCE)
    ensures Worth(value, other) <= Worth(value, Selected(mask))
  {
    var f := i => if 0 <= i < |value| && i in other then value[i] else 0.0;
    var g := i => if 0 <= i < |value| && i in Selected(mask) then value[i] else 0.0;
    forall i | 0 <= i < |value| ensures f(i) <= g(i) {
      var scaled := Rescaled(value, k)[i];
      SignKept(value, k, i);
      assert !(0.0 < scaled <= TOLERANCE);
      assert i in Selected(mask) <==> scaled > TOLERANCE;
    }
    SumLe(|value|, f, g);
  }

  lemma TinyIsModerate(x: real, top: real)
    requires 0.0 <= x <= 1.0 <= top
    ensures Moderate([x], top)
  {
    assert top / AtLeastOne(1) as real == top;
  }

  /** Below the tolerance the selection is not optimal: one free item worth 1e-13 is left out. */
  method TinyValueIsMissed() returns (mask: seq<bool>)
    ensures mask == [false] && !IsBestClosure([0.0000000000001], [], Selected(mask), 0.0)
  {
    var value := [0.0000000000001];
    MaxFloatIsLarge();
    var r := MaximumWeightClosure(value, []);
    mask := r.value;
    TinyIsModerate(0.0000000000001, MAX_FLOAT);
    assert Closed([], {0}) && Selected(mask) == {};
    WorthOfOne(0.0000000000001);
  }

  lemma WorthOfOne(x: real)
    ensures Worth([x], {0}) == x && Worth([x], {}) == 0.0
  {
    var f := i => if 0 <= i < |[x]| && i in {0} then [x][i] else 0.0;
    assert Sum(1, f) == Sum(0, f) + f(0);
  }
}
