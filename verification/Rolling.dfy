/**
 * Solving one window exactly, and the two scheduling modes built on it:
 * the full horizon at once, and the rolling horizon that commits window after window.
 */
module ScheduleModes {
  import opened Numbers
  import opened Outcomes
  import opened Sums
  import opened Vectors
  import opened ScheduleProgram

  datatype ScheduleError =
    | UnknownMode | BadPeriods | BadDiscount | CapacityLength | NegativeCapacity
    | BadPair | IndexError

  // ---------------------------------------------------------------- the 0/1 solver

  ghost predicate Solves(rows: seq<seq<real>>, rhs: seq<real>, m: nat, x: seq<real>) {
    |x| == m && Binary(x) && Satisfies(rows, rhs, x)
  }

  /** The contract of the 0/1 solver, met here by trying every vector that extends `prefix`. */
  method SolveBinary(c: seq<real>, rows: seq<seq<real>>, rhs: seq<real>, m: nat, prefix: seq<real>)
    returns (r: Option<seq<real>>)
    requires |prefix| <= m && Binary(prefix)
    ensures r.Some? ==> Solves(rows, rhs, m, r.value) && prefix <= r.value
    ensures forall y :: Solves(rows, rhs, m, y) && prefix <= y ==> r.Some? && Dot(c, y) <= Dot(c, r.value)
    decreases m - |prefix|
  {
    if |prefix| == m {
      assert forall y: seq<real> :: |y| == m && prefix <= y ==> y == prefix;
      return if Satisfies(rows, rhs, prefix) then Some(prefix) else None;
    }
    var zero := SolveBinary(c, rows, rhs, m, prefix + [0.0]);
    var one := SolveBinary(c, rows, rhs, m, prefix + [1.0]);
    forall y | Solves(rows, rhs, m, y) && prefix <= y ensures prefix + [0.0] <= y || prefix + [1.0] <= y {
      assert y[|prefix|] == 0.0 || y[|prefix|] == 1.0;
    }
    if one.Some? && (zero.None? || Dot(c, zero.value) < Dot(c, one.value)) { r := one; } else { r := zero; }
  }

  // ---------------------------------------------------------------- one window

  /** Window results carry global periods; this reads them relative to the window's first period. */
  function Relative(period: Schedule, offset: nat): (s: Schedule)
    ensures |s| == |period|
    ensures forall b :: 0 <= b < |s| ==> s[b] == if period[b] == -1 then -1 else period[b] - offset
  {
    seq(|period|, b requires 0 <= b < |period| => if period[b] == -1 then -1 else period[b] - offset)
  }

  predicate InWindow(period: Schedule, offset: nat, periods: nat) {
    forall b :: 0 <= b < |period| ==> period[b] == -1 || offset <= period[b] < offset + periods
  }

  predicate PairsInRange(n: nat, precedence: seq<(int, int)>) {
    forall p :: p in precedence ==> 0 <= p.0 < n && 0 <= p.1 < n
  }

  predicate NonNegative(capacity: seq<real>) {
    forall t :: 0 <= t < |capacity| ==> capacity[t] >= 0.0
  }

  function Unscheduled(n: nat): (s: Schedule)
    ensures |s| == n && forall b :: 0 <= b < n ==> s[b] == -1
  {
    seq(n, b => -1)
  }

  lemma {:induction false} EmptyOccupancy(s: Schedule, t: int)
    requires forall b :: 0 <= b < |s| ==> s[b] != t
    ensures Occupancy(s, t) == 0
  {
    if s != [] { EmptyOccupancy(s[..|s| - 1], t); }
  }

  /** Scheduling nothing is always feasible and worth nothing. */
  lemma EmptyScheduleFeasible(n: nat, value: seq<real>, precedence: seq<(int, int)>, capacity: seq<real>, rate: real,
                              offset: nat)
    requires NonNegative(capacity) && rate > -1.0
    ensures Feasible(Unscheduled(n), n, precedence, capacity)
    ensures Npv(value, rate, offset, Unscheduled(n)) == 0.0
  {
    forall t | 0 <= t < |capacity| ensures Occupancy(Unscheduled(n), t) <= capacity[t].Floor {
      EmptyOccupancy(Unscheduled(n), t);
    }
    SumZero(|value|, b => Earned(value, rate, offset, Unscheduled(n), b));
  }

  /** An optimal vector of the window's program decodes to a schedule no feasible schedule beats. */
  lemma OptimumDecodesToBest(c: seq<real>, rows: seq<seq<real>>, rhs: seq<real>, x: seq<real>, value: seq<real>,
                             precedence: seq<(int, int)>, capacity: seq<real>, rate: real, offset: nat)
    requires rate > -1.0 && PairsInRange(|value|, precedence)
    requires IsWindowProgram(rows, rhs, |value|, precedence, capacity)
    requires IsRow(c, |value|, |capacity|, ProfitCell(value, rate, offset))
    requires Solves(rows, rhs, |value| * |capacity|, x)
    requires forall y :: Solves(rows, rhs, |value| * |capacity|, y) ==> Dot(c, y) <= Dot(c, x)
    ensures var s := Decode(x, |value|, |capacity|);
      Dot(c, x) == Npv(value, rate, offset, s) && IsBest(s, |value|, value, precedence, capacity, rate, offset)
  {
    var n, periods := |value|, |capacity|;
    var s := Decode(x, n, periods);
    EncodingIsExact(rows, rhs, n, precedence, capacity, x);
    ObjectiveIsNpv(c, x, s, value, periods, rate, offset);
    forall other | Feasible(other, n, precedence, capacity)
      ensures Npv(value, rate, offset, other) <= Npv(value, rate, offset, s)
    {
      var y := Encode(other, periods);
      EncodeEncodes(other, periods);
      DecodeEncoding(y, other, periods);
      EncodingIsExact(rows, rhs, n, precedence, capacity, y);
      ObjectiveIsNpv(c, y, other, value, periods, rate, offset);
    }
  }

  /** The solver cannot report infeasibility: the empty schedule satisfies every row. */
  lemma EmptyVectorSolves(rows: seq<seq<real>>, rhs: seq<real>, n: nat, precedence: seq<(int, int)>,
                          capacity: seq<real>)
    requires IsWindowProgram(rows, rhs, n, precedence, capacity) && PairsInRange(n, precedence) && NonNegative(capacity)
    ensures Solves(rows, rhs, n * |capacity|, Encode(Unscheduled(n), |capacity|))
  {
    var s := Unscheduled(n);
    EmptyScheduleFeasible(n, [], precedence, capacity, 0.0, 0);
    EncodeEncodes(s, |capacity|);
    DecodeEncoding(Encode(s, |capacity|), s, |capacity|);
    EncodingIsExact(rows, rhs, n, precedence, capacity, Encode(s, |capacity|));
  }

  /** Exact solve of one window; refused only for a precedence pair outside the window's items. */
  method SolveWindow(value: seq<real>, precedence: seq<(int, int)>, capacity: seq<real>, rate: real, offset: nat)
    returns (ok: bool, npv: real, period: Schedule)
    requires rate > -1.0 && NonNegative(capacity)
    ensures ok <==> PairsInRange(|value|, precedence)
    ensures ok ==> |period| == |value| && InWindow(period, offset, |capacity|)
    ensures ok ==> npv == Npv(value, rate, offset, Relative(period, offset))
    ensures ok ==> IsBest(Relative(period, offset), |value|, value, precedence, capacity, rate, offset)
  {
    var n, periods := |value|, |capacity|;
    npv, period := 0.0, [];
    var c := FillObjective(value, periods, rate, offset);
    var rows, rhs;
    ok, rows, rhs := BuildWindowProgram(n, precedence, capacity);
    if !ok { return; }
    EmptyVectorSolves(rows, rhs, n, precedence, capacity);
    var solved := SolveBinary(c, rows, rhs, n * periods, []);
    var x := solved.value;
    npv := Dot(c, x);
    OptimumDecodesToBest(c, rows, rhs, x, value, precedence, capacity, rate, offset);
    period := Unscheduled(n);
    for b := 0 to n
      invariant |period| == n
      invariant forall i :: 0 <= i < b ==>
        period[i] == if FirstOn(x, periods, i, 0) == -1 then -1 else offset + FirstOn(x, periods, i, 0)
    {
      var first := FirstOn(x, periods, b, 0);
      if first != -1 { period := period[b := offset + first]; } else { period := period[b := -1]; }
    }
    assert Relative(period, offset) == Decode(x, n, periods);
  }

  // ---------------------------------------------------------------- committing a window

  /** How many items a schedule leaves unscheduled. */
  function Holes(s: Schedule): nat {
    if s == [] then 0 else Holes(s[..|s| - 1]) + (if s[|s| - 1] == -1 then 1 else 0)
  }

  /** The position of item `b` among the unscheduled items. */
  function Rank(s: Schedule, b: int): nat
    requires 0 <= b <= |s|
  {
    Holes(s[..b])
  }

  /** Fill the unscheduled items of `s`, in order, with the entries of `w`. */
  function Merge(s: Schedule, w: Schedule): (r: Schedule)
    requires |w| == Holes(s)
    ensures |r| == |s|
    decreases |s|
  {
    if s == [] then [] else
    var k := |s| - 1;
    if s[k] == -1 then Merge(s[..k], w[..|w| - 1]) + [w[|w| - 1]] else Merge(s[..k], w) + [s[k]]
  }

  /** The entries of `value` at the unscheduled items. */
  function Pick(value: seq<real>, s: Schedule): (r: seq<real>)
    requires |value| == |s|
    ensures |r| == Holes(s)
    decreases |s|
  {
    if s == [] then [] else
    var k := |s| - 1;
    Pick(value[..k], s[..k]) + (if s[k] == -1 then [value[k]] else [])
  }

  lemma {:induction false} RankBound(s: Schedule, b: int)
    requires 0 <= b < |s|
    ensures Rank(s, b) <= Holes(s) && (s[b] == -1 ==> Rank(s, b) < Holes(s))
    decreases |s|
  {
    if b < |s| - 1 {
      RankBound(s[..|s| - 1], b);
      assert s[..|s| - 1][..b] == s[..b];
    }
  }

  lemma {:induction false} RankIncreases(s: Schedule, a: int, b: int)
    requires 0 <= a < b < |s| && s[a] == -1
    ensures Rank(s, a) < Rank(s, b)
  {
    RankBound(s[..b], a);
    assert s[..b][..a] == s[..a];
  }

  lemma {:induction false} MergeAt(s: Schedule, w: Schedule, b: int)
    requires |w| == Holes(s) && 0 <= b < |s|
    ensures s[b] != -1 ==> Merge(s, w)[b] == s[b]
    ensures s[b] == -1 ==> Rank(s, b) < |w| && Merge(s, w)[b] == w[Rank(s, b)]
    decreases |s|
  {
    var k := |s| - 1;
    RankBound(s, b);
    if b < k {
      RankBound(s[..k], b);
      assert s[..k][..b] == s[..b];
      if s[k] == -1 { MergeAt(s[..k], w[..|w| - 1], b); } else { MergeAt(s[..k], w, b); }
    }
  }

  lemma {:induction false} MergeOccupancy(s: Schedule, w: Schedule, t: int)
    requires |w| == Holes(s) && t != -1
    ensures Occupancy(Merge(s, w), t) == Occupancy(s, t) + Occupancy(w, t)
    decreases |s|
  {
    if s != [] {
      var k := |s| - 1;
      var m := Merge(s, w);
      if s[k] == -1 {
        MergeOccupancy(s[..k], w[..|w| - 1], t);
        assert m[..k] == Merge(s[..k], w[..|w| - 1]);
      } else {
        MergeOccupancy(s[..k], w, t);
        assert m[..k] == Merge(s[..k], w);
      }
    }
  }

  lemma NpvPrefix(value: seq<real>, rate: real, offset: nat, s: Schedule)
    requires rate > -1.0 && |value| == |s| > 0
    ensures Npv(value, rate, offset, s) ==
      Npv(value[..|s| - 1], rate, offset, s[..|s| - 1]) + Earned(value, rate, offset, s, |s| - 1)
  {
    var k := |s| - 1;
    SumExt(k, b => Earned(value, rate, offset, s, b), b => Earned(value[..k], rate, offset, s[..k], b));
  }

  /** Filling a schedule adds, to what it earned, what the filling earns on the values it was filled with. */
  lemma {:induction false} MergeNpv(value: seq<real>, rate: real, s: Schedule, w: Schedule)
    requires rate > -1.0 && |value| == |s| && |w| == Holes(s)
    ensures Npv(value, rate, 0, Merge(s, w)) == Npv(value, rate, 0, s) + Npv(Pick(value, s), rate, 0, w)
    decreases |s|
  {
    if s != [] {
      var k := |s| - 1;
      NpvPrefix(value, rate, 0, s);
      MergedNpvPrefix(value, rate, s, w);
      if s[k] == -1 {
        MergeNpv(value[..k], rate, s[..k], w[..|w| - 1]);
        PickedNpvPrefix(value, rate, s, w);
      } else {
        MergeNpv(value[..k], rate, s[..k], w);
        PickKept(value, s);
      }
    }
  }

  lemma MergedNpvPrefix(value: seq<real>, rate: real, s: Schedule, w: Schedule)
    requires rate > -1.0 && |value| == |s| > 0 && |w| == Holes(s)
    ensures var k := |s| - 1;
      if s[k] == -1 then
        Npv(value, rate, 0, Merge(s, w)) ==
          Npv(value[..k], rate, 0, Merge(s[..k], w[..|w| - 1])) + Earned(Pick(value, s), rate, 0, w, |w| - 1)
      else
        Npv(value, rate, 0, Merge(s, w)) == Npv(value[..k], rate, 0, Merge(s[..k], w)) + Earned(value, rate, 0, s, k)
  {
    var m := Merge(s, w);
    NpvPrefix(value, rate, 0, m);
    MergedEarned(value, rate, s, w);
    if s[|s| - 1] == -1 {
      assert m[..|s| - 1] == Merge(s[..|s| - 1], w[..|w| - 1]);
    } else {
      assert m[..|s| - 1] == Merge(s[..|s| - 1], w);
    }
  }

  lemma MergedEarned(value: seq<real>, rate: real, s: Schedule, w: Schedule)
    requires rate > -1.0 && |value| == |s| > 0 && |w| == Holes(s)
    ensures Earned(value, rate, 0, Merge(s, w), |s| - 1) ==
      if s[|s| - 1] == -1 then Earned(Pick(value, s), rate, 0, w, |w| - 1) else Earned(value, rate, 0, s, |s| - 1)
  {
    LastMerged(value, s, w);
    if s[|s| - 1] == -1 {
      SameEarned(value, Merge(s, w), |s| - 1, Pick(value, s), w, |w| - 1, rate);
    } else {
      SameEarned(value, Merge(s, w), |s| - 1, value, s, |s| - 1, rate);
    }
  }

  lemma LastMerged(value: seq<real>, s: Schedule, w: Schedule)
    requires |value| == |s| > 0 && |w| == Holes(s)
    ensures s[|s| - 1] != -1 ==> Merge(s, w)[|s| - 1] == s[|s| - 1]
    ensures s[|s| - 1] == -1 ==>
      |w| > 0 && Merge(s, w)[|s| - 1] == w[|w| - 1] && Pick(value, s)[|w| - 1] == value[|s| - 1]
  {
  }

  lemma SameEarned(value: seq<real>, s: Schedule, b: nat, value': seq<real>, s': Schedule, b': nat, rate: real)
    requires rate > -1.0 && b < |s| && b < |value| && b' < |s'| && b' < |value'|
    requires value[b] == value'[b'] && s[b] == s'[b']
    ensures Earned(value, rate, 0, s, b) == Earned(value', rate, 0, s', b')
  {
    SameEarnedFrom(value, s, b, value', s', b', rate, 0);
  }

  lemma SameEarnedFrom(value: seq<real>, s: Schedule, b: nat, value': seq<real>, s': Schedule, b': nat, rate: real,
                       offset: nat)
    requires rate > -1.0 && b < |s| && b < |value| && b' < |s'| && b' < |value'|
    requires value[b] == value'[b'] && s[b] == s'[b']
    ensures Earned(value, rate, offset, s, b) == Earned(value', rate, offset, s', b')
  {
  }

  lemma PickedNpvPrefix(value: seq<real>, rate: real, s: Schedule, w: Schedule)
    requires rate > -1.0 && |value| == |s| > 0 && |w| == Holes(s) && s[|s| - 1] == -1
    ensures Npv(Pick(value, s), rate, 0, w) ==
      Npv(Pick(value[..|s| - 1], s[..|s| - 1]), rate, 0, w[..|w| - 1]) + Earned(Pick(value, s), rate, 0, w, |w| - 1)
    ensures Earned(value, rate, 0, s, |s| - 1) == 0.0
  {
    NpvPrefix(Pick(value, s), rate, 0, w);
    assert Pick(value, s)[..|w| - 1] == Pick(value[..|s| - 1], s[..|s| - 1]);
  }

  lemma PickKept(value: seq<real>, s: Schedule)
    requires |value| == |s| > 0 && s[|s| - 1] != -1
    ensures Pick(value, s) == Pick(value[..|s| - 1], s[..|s| - 1])
  {
  }

  lemma RelativeNpv(value: seq<real>, rate: real, offset: nat, periods: nat, w: Schedule)
    requires rate > -1.0 && InWindow(w, offset, periods) && |value| == |w|
    ensures Npv(value, rate, offset, Relative(w, offset)) == Npv(value, rate, 0, w)
  {
    SumExt(|value|, b => Earned(value, rate, offset, Relative(w, offset), b), b => Earned(value, rate, 0, w, b));
  }

  lemma {:induction false} RelativeOccupancy(w: Schedule, offset: nat, periods: nat, t: nat)
    requires InWindow(w, offset, periods)
    ensures Occupancy(Relative(w, offset), t) == Occupancy(w, offset + t)
    decreases |w|
  {
    if w != [] {
      RelativeOccupancy(w[..|w| - 1], offset, periods, t);
      assert Relative(w, offset)[..|w| - 1] == Relative(w[..|w| - 1], offset);
    }
  }

  /** The pairs handed to a window: those between two items still unscheduled, renumbered. */
  ghost predicate LocalPairs(local: seq<(int, int)>, precedence: seq<(int, int)>, s: Schedule) {
    && (forall p :: p in precedence && Pending(p, s) ==> (Rank(s, p.0), Rank(s, p.1)) in local)
    && (forall q :: q in local ==> ComesFromPair(q, precedence, s))
  }

  ghost predicate ComesFromPair(q: (int, int), precedence: seq<(int, int)>, s: Schedule) {
    exists p :: p in precedence && Renumbers(p, q, s)
  }

  predicate Renumbers(p: (int, int), q: (int, int), s: Schedule) {
    Pending(p, s) && q == (Rank(s, p.0), Rank(s, p.1))
  }

  predicate Pending(p: (int, int), s: Schedule) {
    0 <= p.0 < |s| && 0 <= p.1 < |s| && s[p.0] == -1 && s[p.1] == -1
  }

  /** Committing a feasible window keeps the combined schedule feasible one window further on. */
  lemma CommitFeasible(s: Schedule, w: Schedule, n: nat, precedence: seq<(int, int)>, local: seq<(int, int)>,
                       capacity: seq<real>, t: nat, k: nat)
    requires t + k <= |capacity| && |w| == Holes(s)
    requires Feasible(s, n, precedence, capacity[..t])
    requires InWindow(w, t, k) && LocalPairs(local, precedence, s)
    requires Feasible(Relative(w, t), |w|, local, capacity[t..t + k])
    ensures Feasible(Merge(s, w), n, precedence, capacity[..t + k])
  {
    var m := Merge(s, w);
    forall b | 0 <= b < n ensures -1 <= m[b] < t + k { MergeAt(s, w, b); }
    forall tau | 0 <= tau < t + k ensures Occupancy(m, tau) <= capacity[..t + k][tau].Floor {
      MergeWithinCapacity(s, w, capacity, t, k, tau);
    }
    forall p | p in precedence && 0 <= p.0 < n && 0 <= p.1 < n && m[p.0] != -1
      ensures m[p.1] != -1 && m[p.1] <= m[p.0]
    {
      MergeRespectsPair(s, w, precedence, local, t, k, p);
    }
  }

  lemma MergeWithinCapacity(s: Schedule, w: Schedule, capacity: seq<real>, t: nat, k: nat, tau: nat)
    requires t + k <= |capacity| && |w| == Holes(s) && tau < t + k && InWindow(w, t, k)
    requires InPeriods(s, |s|, t) && WithinCapacity(s, capacity[..t])
    requires WithinCapacity(Relative(w, t), capacity[t..t + k])
    ensures Occupancy(Merge(s, w), tau) <= capacity[tau].Floor
  {
    MergedOccupancy(s, w, t, k, tau);
    if tau < t { EarlierCapacity(s, capacity, t, tau); }
    else { WindowCapacity(Relative(w, t), capacity, t, k, tau - t); }
  }

  /** Each period holds what was committed to it, before the window or in it. */
  lemma MergedOccupancy(s: Schedule, w: Schedule, t: nat, k: nat, tau: nat)
    requires |w| == Holes(s) && InPeriods(s, |s|, t) && InWindow(w, t, k)
    ensures Occupancy(Merge(s, w), tau) ==
      if tau < t then Occupancy(s, tau) else Occupancy(Relative(w, t), tau - t)
  {
    MergeOccupancy(s, w, tau);
    if tau < t {
      EmptyOccupancy(w, tau);
    } else {
      EmptyOccupancy(s, tau);
      RelativeOccupancy(w, t, k, tau - t);
    }
  }

  lemma EarlierCapacity(s: Schedule, capacity: seq<real>, t: nat, tau: nat)
    requires tau < t <= |capacity| && WithinCapacity(s, capacity[..t])
    ensures Occupancy(s, tau) <= capacity[tau].Floor
  {
    assert capacity[..t][tau] == capacity[tau];
  }

  lemma WindowCapacity(w: Schedule, capacity: seq<real>, t: nat, k: nat, tau: nat)
    requires t + k <= |capacity| && tau < k && WithinCapacity(w, capacity[t..t + k])
    ensures Occupancy(w, tau) <= capacity[t + tau].Floor
  {
    assert capacity[t..t + k][tau] == capacity[t + tau];
  }

  lemma MergeRespectsPair(s: Schedule, w: Schedule, precedence: seq<(int, int)>, local: seq<(int, int)>, t: nat,
                          k: nat, p: (int, int))
    requires |w| == Holes(s) && p in precedence && 0 <= p.0 < |s| && 0 <= p.1 < |s| && Merge(s, w)[p.0] != -1
    requires InPeriods(s, |s|, t) && RespectsPrecedence(s, precedence)
    requires InWindow(w, t, k) && LocalPairs(local, precedence, s) && RespectsPrecedence(Relative(w, t), local)
    ensures Merge(s, w)[p.1] != -1 && Merge(s, w)[p.1] <= Merge(s, w)[p.0]
  {
    MergeAt(s, w, p.0);
    MergeAt(s, w, p.1);
    if Pending(p, s) { assert (Rank(s, p.0), Rank(s, p.1)) in local; }
  }

  // ---------------------------------------------------------------- the rolling horizon

  /** The most (item x period) binaries one rolling window may hold. */
  const DIRECT_MILP_LIMIT: nat := 400

  /** `candidates` lists the unscheduled items in order; the dictionary `localOf` inverts the list. */
  ghost predicate Candidates(candidates: seq<int>, localOf: map<int, int>, period: Schedule) {
    && |candidates| == Holes(period)
    && (forall i :: 0 <= i < |candidates| ==> IsCandidate(period, candidates[i], i))
    && (forall b :: b in localOf <==> 0 <= b < |period| && period[b] == -1)
    && (forall b :: b in localOf ==> localOf[b] == Rank(period, b))
  }

  /** Item `b` is the `i`-th unscheduled item. */
  predicate IsCandidate(period: Schedule, b: int, i: int) {
    0 <= b < |period| && period[b] == -1 && Rank(period, b) == i
  }

  method ListCandidates(period: Schedule, scheduled: seq<bool>) returns (candidates: seq<int>, localOf: map<int, int>)
    requires |scheduled| == |period| && forall b :: 0 <= b < |period| ==> (scheduled[b] <==> period[b] != -1)
    ensures Candidates(candidates, localOf, period)
    ensures forall b :: 0 <= b < |period| && period[b] == -1 ==> b in candidates
  {
    candidates, localOf := [], map[];
    for b := 0 to |period|
      invariant |candidates| == Holes(period[..b])
      invariant forall i :: 0 <= i < |candidates| ==> IsCandidate(period, candidates[i], i)
      invariant forall i :: i in localOf <==> 0 <= i < b && period[i] == -1
      invariant forall i :: i in localOf ==> localOf[i] == Rank(period, i)
      invariant forall i :: 0 <= i < b && period[i] == -1 ==> i in candidates
    {
      assert period[..b + 1][..b] == period[..b];
      if !scheduled[b] {
        localOf := localOf[b := |candidates|];
        candidates := candidates + [b];
      }
    }
    assert period[..|period|] == period;
  }

  /** The dictionary from an item to its listed predecessors. */
  ghost predicate PredecessorMap(predOf: map<int, seq<int>>, precedence: seq<(int, int)>) {
    forall b, q :: (b, q) in precedence <==> b in predOf && q in predOf[b]
  }

  method GroupPredecessors(precedence: seq<(int, int)>) returns (predOf: map<int, seq<int>>)
    ensures PredecessorMap(predOf, precedence)
  {
    predOf := map[];
    for k := 0 to |precedence|
      invariant PredecessorMap(predOf, precedence[..k])
    {
      var (b, pred) := precedence[k];
      assert precedence[..k + 1] == precedence[..k] + [(b, pred)];
      predOf := predOf[b := (if b in predOf then predOf[b] else []) + [pred]];
    }
    assert precedence[..|precedence|] == precedence;
  }

  /** Indexing an array of `n` entries with `q` raises. Negative indices down to `-n` count from the end. */
  predicate OffArray(q: int, n: nat) {
    q >= n || q + n < 0
  }

  /** The pairs of one candidate among `preds`. An index off the array raises; a negative one selects an entry
      from the end of the array, but no negative item is a candidate, so such a pair is dropped. */
  method LocalPairsOf(b: int, preds: seq<int>, period: Schedule, scheduled: seq<bool>, localOf: map<int, int>)
    returns (ok: bool, local: seq<(int, int)>)
    requires |scheduled| == |period| && b in localOf
    requires forall i :: 0 <= i < |period| ==> (scheduled[i] <==> period[i] != -1)
    requires forall i :: i in localOf <==> 0 <= i < |period| && period[i] == -1
    ensures ok <==> forall q :: q in preds ==> !OffArray(q, |period|)
    ensures ok ==> forall q :: q in preds && q in localOf ==> (localOf[b], localOf[q]) in local
    ensures ok ==> forall r :: r in local ==> exists q :: q in preds && q in localOf && r == (localOf[b], localOf[q])
  {
    local := [];
    for k := 0 to |preds|
      invariant forall q :: q in preds[..k] ==> !OffArray(q, |period|)
      invariant forall q :: q in preds[..k] && q in localOf ==> (localOf[b], localOf[q]) in local
      invariant forall r :: r in local ==> exists q :: q in preds && q in localOf && r == (localOf[b], localOf[q])
    {
      var q := preds[k];
      assert preds[..k + 1] == preds[..k] + [q];
      if OffArray(q, |period|) { return false, local; }
      var entry := if q < 0 then scheduled[q + |period|] else scheduled[q];
      if !entry && q in localOf {
        local := local + [(localOf[b], localOf[q])];
      }
    }
    assert preds[..|preds|] == preds;
    ok := true;
  }

  /** Some candidate names a predecessor off the array. */
  ghost predicate RaisesIndexError(precedence: seq<(int, int)>, period: Schedule) {
    exists p :: p in precedence && 0 <= p.0 < |period| && period[p.0] == -1 && OffArray(p.1, |period|)
  }

  ghost predicate OnArray(precedence: seq<(int, int)>, heads: seq<int>, n: nat) {
    forall p :: p in precedence && p.0 in heads ==> !OffArray(p.1, n)
  }

  ghost predicate CoversHeads(local: seq<(int, int)>, precedence: seq<(int, int)>, heads: seq<int>, period: Schedule) {
    forall p :: p in precedence && Pending(p, period) && p.0 in heads ==>
      (Rank(period, p.0), Rank(period, p.1)) in local
  }

  method BuildLocalPairs(candidates: seq<int>, localOf: map<int, int>, predOf: map<int, seq<int>>,
                         period: Schedule, scheduled: seq<bool>, ghost precedence: seq<(int, int)>)
    returns (ok: bool, local: seq<(int, int)>)
    requires |scheduled| == |period| && forall i :: 0 <= i < |period| ==> (scheduled[i] <==> period[i] != -1)
    requires Candidates(candidates, localOf, period) && PredecessorMap(predOf, precedence)
    requires forall b :: 0 <= b < |period| && period[b] == -1 ==> b in candidates
    ensures ok <==> !RaisesIndexError(precedence, period)
    ensures ok ==> LocalPairs(local, precedence, period)
  {
    local := [];
    for i := 0 to |candidates|
      invariant OnArray(precedence, candidates[..i], |period|)
      invariant CoversHeads(local, precedence, candidates[..i], period)
      invariant forall q :: q in local ==> ComesFromPair(q, precedence, period)
    {
      var b := candidates[i];
      ghost var heads := candidates[..i + 1];
      assert heads == candidates[..i] + [b] && IsCandidate(period, b, i);
      var preds := if b in predOf then predOf[b] else [];
      assert forall q :: q in preds <==> (b, q) in precedence;
      var fine, more := LocalPairsOf(b, preds, period, scheduled, localOf);
      if !fine {
        var q :| q in preds && OffArray(q, |period|);
        assert (b, q) in precedence;
        return false, local;
      }
      forall r | r in more ensures ComesFromPair(r, precedence, period) {
        var q :| q in preds && q in localOf && r == (localOf[b], localOf[q]);
        assert Renumbers((b, q), r, period);
      }
      forall p | p in precedence && p.0 == b ensures !OffArray(p.1, |period|) {
        assert p == (b, p.1) && p.1 in preds;
      }
      forall p | p in precedence && Pending(p, period) && p.0 == b
        ensures (Rank(period, p.0), Rank(period, p.1)) in more
      {
        assert p == (b, p.1) && p.1 in preds && p.1 in localOf;
      }
      local := local + more;
    }
    assert candidates[..|candidates|] == candidates;
    ok := true;
  }

  /** Copy a window's decisions back onto the items they belong to. */
  method Commit(candidates: seq<int>, ghost localOf: map<int, int>, w: Schedule, period0: Schedule,
                scheduled0: seq<bool>)
    returns (period: Schedule, scheduled: seq<bool>)
    requires |scheduled0| == |period0| && forall i :: 0 <= i < |period0| ==> (scheduled0[i] <==> period0[i] != -1)
    requires Candidates(candidates, localOf, period0) && |w| == Holes(period0)
    ensures period == Merge(period0, w)
    ensures |scheduled| == |period| && forall i :: 0 <= i < |period| ==> (scheduled[i] <==> period[i] != -1)
  {
    period, scheduled := period0, scheduled0;
    var n := |period0|;
    for i := 0 to |candidates|
      invariant |period| == |scheduled| == n
      invariant forall b :: 0 <= b < n ==> (scheduled[b] <==> period[b] != -1)
      invariant forall b :: 0 <= b < n && (period0[b] != -1 || Rank(period0, b) >= i) ==> period[b] == period0[b]
      invariant forall b :: 0 <= b < n && period0[b] == -1 && Rank(period0, b) < i ==> period[b] == w[Rank(period0, b)]
    {
      var b := candidates[i];
      forall a | 0 <= a < n && period0[a] == -1 && a != b ensures Rank(period0, a) != i {
        if a < b { RankIncreases(period0, a, b); } else { RankIncreases(period0, b, a); }
      }
      if w[i] != -1 {
        scheduled := scheduled[b := true];
        period := period[b := w[i]];
      }
    }
    forall b | 0 <= b < n ensures period[b] == Merge(period0, w)[b] { MergeAt(period0, w, b); }
  }

  lemma {:induction false} PickAt(value: seq<real>, s: Schedule, b: int)
    requires |value| == |s| && 0 <= b < |s| && s[b] == -1
    ensures Rank(s, b) < Holes(s) && Pick(value, s)[Rank(s, b)] == value[b]
    decreases |s|
  {
    var k := |s| - 1;
    RankBound(s, b);
    if b < k {
      PickAt(value[..k], s[..k], b);
      assert s[..k][..b] == s[..b];
    }
  }

  /** The candidates' values, in the candidates' order. */
  method PickValues(value: seq<real>, candidates: seq<int>, ghost localOf: map<int, int>, period: Schedule)
    returns (picked: seq<real>)
    requires |value| == |period| && Candidates(candidates, localOf, period)
    ensures picked == Pick(value, period)
  {
    picked := seq(|candidates|, i requires 0 <= i < |candidates| && 0 <= candidates[i] < |value| =>
      value[candidates[i]]);
    forall i | 0 <= i < |candidates| ensures picked[i] == Pick(value, period)[i] {
      assert IsCandidate(period, candidates[i], i);
      PickAt(value, period, candidates[i]);
    }
  }

  lemma LocalPairsInRange(local: seq<(int, int)>, precedence: seq<(int, int)>, s: Schedule)
    requires LocalPairs(local, precedence, s)
    ensures PairsInRange(Holes(s), local)
  {
    forall q | q in local ensures 0 <= q.0 < Holes(s) && 0 <= q.1 < Holes(s) {
      assert ComesFromPair(q, precedence, s);
      var p :| p in precedence && Renumbers(p, q, s);
      RankBound(s, p.0);
      RankBound(s, p.1);
    }
  }

  lemma FeasibleEarlier(s: Schedule, n: nat, precedence: seq<(int, int)>, capacity: seq<real>, t: nat)
    requires t <= |capacity| && NonNegative(capacity) && Feasible(s, n, precedence, capacity[..t])
    ensures Feasible(s, n, precedence, capacity)
  {
    forall tau | 0 <= tau < |capacity| ensures Occupancy(s, tau) <= capacity[tau].Floor {
      if tau < t { assert Occupancy(s, tau) <= capacity[..t][tau].Floor; } else { EmptyOccupancy(s, tau); }
    }
  }

  lemma {:induction false} NothingScheduledYet(n: nat, w: Schedule, value: seq<real>)
    requires |w| == n && |value| == n
    ensures Holes(Unscheduled(n)) == n && Merge(Unscheduled(n), w) == w && Pick(value, Unscheduled(n)) == value
    ensures forall b :: 0 <= b <= n ==> Rank(Unscheduled(n), b) == b
  {
    if n > 0 {
      assert Unscheduled(n)[..n - 1] == Unscheduled(n - 1);
      NothingScheduledYet(n - 1, w[..n - 1], value[..n - 1]);
    }
    forall b | 0 <= b <= n ensures Rank(Unscheduled(n), b) == b {
      AllHoles(b);
      assert Unscheduled(n)[..b] == Unscheduled(b);
    }
  }

  lemma {:induction false} AllHoles(n: nat)
    ensures Holes(Unscheduled(n)) == n
  {
    if n > 0 {
      assert Unscheduled(n)[..n - 1] == Unscheduled(n - 1);
      AllHoles(n - 1);
    }
  }

  /** In the first window every item is a candidate, so its best schedule is best for the original pairs too. */
  lemma FirstWindowIsBest(w: Schedule, n: nat, value: seq<real>, precedence: seq<(int, int)>, local: seq<(int, int)>,
                          capacity: seq<real>, rate: real)
    requires rate > -1.0 && |value| == n && |w| == n && InWindow(w, 0, |capacity|)
    requires LocalPairs(local, precedence, Unscheduled(n))
    requires IsBest(Relative(w, 0), n, value, local, capacity, rate, 0)
    ensures IsBest(w, n, value, precedence, capacity, rate, 0)
  {
    assert Relative(w, 0) == w;
    forall s: Schedule | |s| == n ensures RespectsPrecedence(s, local) <==> RespectsPrecedence(s, precedence) {
      NothingScheduledYet(n, s, value);
      SamePairs(s, n, precedence, local);
    }
  }

  lemma SamePairs(s: Schedule, n: nat, precedence: seq<(int, int)>, local: seq<(int, int)>)
    requires |s| == n && LocalPairs(local, precedence, Unscheduled(n))
    requires forall b :: 0 <= b <= n ==> Rank(Unscheduled(n), b) == b
    ensures RespectsPrecedence(s, local) <==> RespectsPrecedence(s, precedence)
  {
    var open := Unscheduled(n);
    if RespectsPrecedence(s, precedence) {
      forall q | q in local && 0 <= q.0 < n && 0 <= q.1 < n && s[q.0] != -1 ensures s[q.1] != -1 && s[q.1] <= s[q.0] {
        assert ComesFromPair(q, precedence, open);
        var p :| p in precedence && Renumbers(p, q, open);
        assert p.0 == q.0 && p.1 == q.1;
      }
    }
    if RespectsPrecedence(s, local) {
      forall p | p in precedence && 0 <= p.0 < n && 0 <= p.1 < n && s[p.0] != -1
        ensures s[p.1] != -1 && s[p.1] <= s[p.0]
      {
        assert Pending(p, open);
        assert (Rank(open, p.0), Rank(open, p.1)) in local;
      }
    }
  }

  // ---------------------------------------------------------------- instances whose windows all lose

  /** Over the `w` periods from `t`, scheduling anything at all is worth less than nothing. */
  ghost predicate LosesIn(value: seq<real>, precedence: seq<(int, int)>, capacity: seq<real>, rate: real, t: nat,
                          w: nat)
    requires rate > -1.0 && t + w <= |capacity|
  {
    forall s :: Feasible(s, |value|, precedence, capacity[t..t + w]) && s != Unscheduled(|value|) ==>
      Npv(value, rate, t, s) < 0.0
  }

  /** Every stretch no longer than the window loses. */
  ghost predicate Myopic(value: seq<real>, precedence: seq<(int, int)>, capacity: seq<real>, rate: real, window: nat)
    requires rate > -1.0
  {
    forall t: nat, w: nat :: w <= window && t + w <= |capacity| ==> LosesIn(value, precedence, capacity, rate, t, w)
  }

  /** A window that loses, solved with nothing scheduled yet, commits nothing. */
  lemma LosingWindow(value: seq<real>, precedence: seq<(int, int)>, local: seq<(int, int)>, capacity: seq<real>,
                     rate: real, t: nat, w: nat, period: Schedule, chosen: Schedule)
    requires rate > -1.0 && NonNegative(capacity) && t + w <= |capacity| && period == Unscheduled(|value|)
    requires LosesIn(value, precedence, capacity, rate, t, w)
    requires |chosen| == Holes(period) && InWindow(chosen, t, w) && LocalPairs(local, precedence, period)
    requires IsBest(Relative(chosen, t), |chosen|, Pick(value, period), local, capacity[t..t + w], rate, t)
    ensures Merge(period, chosen) == Unscheduled(|value|)
  {
    var n := |value|;
    NothingScheduledYet(n, period, value);
    NothingScheduledYet(n, chosen, value);
    BestOfLosing(value, precedence, local, capacity, rate, t, w, Relative(chosen, t));
    NothingChosen(chosen, t, w);
  }

  lemma BestOfLosing(value: seq<real>, precedence: seq<(int, int)>, local: seq<(int, int)>, capacity: seq<real>,
                     rate: real, t: nat, w: nat, s: Schedule)
    requires rate > -1.0 && NonNegative(capacity) && t + w <= |capacity|
    requires LosesIn(value, precedence, capacity, rate, t, w) && LocalPairs(local, precedence, Unscheduled(|value|))
    requires IsBest(s, |value|, value, local, capacity[t..t + w], rate, t)
    ensures s == Unscheduled(|value|)
  {
    NothingScheduledYet(|value|, s, value);
    SamePairs(s, |value|, precedence, local);
    EmptyScheduleFeasible(|value|, value, local, capacity[t..t + w], rate, t);
  }

  lemma NothingChosen(chosen: Schedule, t: nat, w: nat)
    requires InWindow(chosen, t, w) && Relative(chosen, t) == Unscheduled(|chosen|)
    ensures chosen == Unscheduled(|chosen|)
  {
    forall b | 0 <= b < |chosen| ensures chosen[b] == -1 {
      assert Relative(chosen, t)[b] == -1;
    }
  }

  // ---------------------------------------------------------------- what each window leaves in the schedule

  /** What a schedule had committed before period `t`. */
  function Before(s: Schedule, t: nat): (r: Schedule)
    ensures |r| == |s| && forall b :: 0 <= b < |s| ==> r[b] == if s[b] < t then s[b] else -1
  {
    seq(|s|, b requires 0 <= b < |s| => if s[b] < t then s[b] else -1)
  }

  /** What a schedule does in the `w` periods from `t`, relative to `t`. */
  function Within(s: Schedule, t: nat, w: nat): (r: Schedule)
    ensures |r| == |s| && forall b :: 0 <= b < |s| ==> r[b] == if t <= s[b] < t + w then s[b] - t else -1
  {
    seq(|s|, b requires 0 <= b < |s| => if t <= s[b] < t + w then s[b] - t else -1)
  }

  /** `f` schedules, over a window's periods, only items that `kept` has left open, within the window's capacity, and
      respects every pair between two such items. */
  ghost predicate IsFilling(f: Schedule, kept: Schedule, precedence: seq<(int, int)>, capacity: seq<real>) {
    && InPeriods(f, |kept|, |capacity|) && WithinCapacity(f, capacity)
    && (forall b :: 0 <= b < |kept| && kept[b] != -1 ==> f[b] == -1)
    && (forall p :: p in precedence && Pending(p, kept) && f[p.0] != -1 ==> f[p.1] != -1 && f[p.1] <= f[p.0])
  }

  ghost predicate FillsBest(f: Schedule, kept: Schedule, value: seq<real>, precedence: seq<(int, int)>,
                            capacity: seq<real>, rate: real, t: nat)
    requires rate > -1.0
  {
    && IsFilling(f, kept, precedence, capacity)
    && forall g :: IsFilling(g, kept, precedence, capacity) ==> Npv(value, rate, t, g) <= Npv(value, rate, t, f)
  }

  /** In the `w` periods from `t`, the schedule does the best that can be done with the items it has left open. */
  ghost predicate WindowIsBest(value: seq<real>, precedence: seq<(int, int)>, capacity: seq<real>, rate: real,
                               s: Schedule, t: nat, w: nat)
    requires rate > -1.0 && t + w <= |capacity|
  {
    FillsBest(Within(s, t, w), Before(s, t), value, precedence, capacity[t..t + w], rate, t)
  }

  /** `t` is a whole number of windows from the start. */
  predicate StartsWindow(window: nat, t: nat)
    requires window >= 1
  {
    t == 0 || (t >= window && StartsWindow(window, t - window))
  }

  /** Every window that starts before `t` is best. */
  ghost predicate Rolled(value: seq<real>, precedence: seq<(int, int)>, capacity: seq<real>, rate: real, window: nat,
                         t: nat, s: Schedule)
    requires rate > -1.0 && window >= 1 && t <= |capacity|
  {
    forall u: nat :: u < t && StartsWindow(window, u) ==>
      WindowIsBest(value, precedence, capacity, rate, s, u, SmallerNat(window, |capacity| - u))
  }

  /** The rolling loop stands at the start of a window, or at the end, and every window it has passed is best. */
  ghost predicate RollingWindows(value: seq<real>, precedence: seq<(int, int)>, capacity: seq<real>, rate: real,
                                 window: nat, t: nat, period: Schedule)
    requires rate > -1.0 && window >= 1
  {
    && t <= |capacity| && Rolled(value, precedence, capacity, rate, window, t, period)
    && (t < |capacity| ==> StartsWindow(window, t))
  }

  /** The entries of `f` at the unscheduled items of `s`. */
  function PickEntries(f: Schedule, s: Schedule): (r: Schedule)
    requires |f| == |s|
    ensures |r| == Holes(s)
    decreases |s|
  {
    if s == [] then [] else
    var k := |s| - 1;
    PickEntries(f[..k], s[..k]) + (if s[k] == -1 then [f[k]] else [])
  }

  lemma {:induction false} PickedEntry(f: Schedule, s: Schedule, b: int)
    requires |f| == |s| && 0 <= b < |s| && s[b] == -1
    ensures Rank(s, b) < Holes(s) && PickEntries(f, s)[Rank(s, b)] == f[b]
    decreases |s|
  {
    var k := |s| - 1;
    RankBound(s, b);
    if b < k {
      PickedEntry(f[..k], s[..k], b);
      assert s[..k][..b] == s[..b];
    }
  }

  lemma {:induction false} PickedFrom(f: Schedule, s: Schedule, i: int) returns (b: int)
    requires |f| == |s| && 0 <= i < Holes(s)
    ensures 0 <= b < |s| && s[b] == -1 && PickEntries(f, s)[i] == f[b]
    decreases |s|
  {
    var k := |s| - 1;
    if i < Holes(s[..k]) { b := PickedFrom(f[..k], s[..k], i); } else { b := k; }
  }

  predicate IdleWhereKept(f: Schedule, s: Schedule) {
    |f| == |s| && forall b :: 0 <= b < |s| && s[b] != -1 ==> f[b] == -1
  }

  lemma LastEntry(f: Schedule, s: Schedule)
    requires IdleWhereKept(f, s) && s != []
    ensures var k, e := |s| - 1, PickEntries(f, s);
      IdleWhereKept(f[..k], s[..k]) && if s[k] == -1 then
        e != [] && e[..|e| - 1] == PickEntries(f[..k], s[..k]) && e[|e| - 1] == f[k]
      else
        e == PickEntries(f[..k], s[..k]) && f[k] == -1
  {
  }

  lemma {:induction false} PickedOccupancy(f: Schedule, s: Schedule, t: nat)
    requires IdleWhereKept(f, s)
    ensures Occupancy(PickEntries(f, s), t) == Occupancy(f, t)
    decreases |s|
  {
    if s != [] {
      var k := |s| - 1;
      PickedOccupancy(f[..k], s[..k], t);
      LastEntry(f, s);
    }
  }

  lemma {:induction false} PickedNpv(value: seq<real>, rate: real, t: nat, f: Schedule, s: Schedule)
    requires rate > -1.0 && |value| == |s| && IdleWhereKept(f, s)
    ensures Npv(Pick(value, s), rate, t, PickEntries(f, s)) == Npv(value, rate, t, f)
    decreases |s|
  {
    if s != [] {
      var k := |s| - 1;
      LastEntry(f, s);
      PickedNpv(value[..k], rate, t, f[..k], s[..k]);
      NpvPrefix(value, rate, t, f);
      if s[k] == -1 { LastPicked(value, rate, t, f, s); } else { PickKept(value, s); }
    }
  }

  lemma LastPicked(value: seq<real>, rate: real, t: nat, f: Schedule, s: Schedule)
    requires rate > -1.0 && |value| == |s| > 0 && IdleWhereKept(f, s) && s[|s| - 1] == -1
    ensures var k := |s| - 1;
      Npv(Pick(value, s), rate, t, PickEntries(f, s)) ==
        Npv(Pick(value[..k], s[..k]), rate, t, PickEntries(f[..k], s[..k])) + Earned(value, rate, t, f, k)
  {
    LastEntry(f, s);
    LastValue(value, s);
    LastTerm(Pick(value, s), rate, t, PickEntries(f, s), value, f, |s| - 1);
  }

  lemma LastTerm(v: seq<real>, rate: real, t: nat, e: Schedule, value: seq<real>, f: Schedule, k: nat)
    requires rate > -1.0 && |v| == |e| > 0 && k < |value| && k < |f|
    requires v[|v| - 1] == value[k] && e[|e| - 1] == f[k]
    ensures Npv(v, rate, t, e) == Npv(v[..|v| - 1], rate, t, e[..|e| - 1]) + Earned(value, rate, t, f, k)
  {
    NpvPrefix(v, rate, t, e);
    SameEarnedFrom(v, e, |e| - 1, value, f, k, rate, t);
  }

  lemma LastValue(value: seq<real>, s: Schedule)
    requires |value| == |s| > 0 && s[|s| - 1] == -1
    ensures var v := Pick(value, s);
      v != [] && v[..|v| - 1] == Pick(value[..|s| - 1], s[..|s| - 1]) && v[|v| - 1] == value[|s| - 1]
  {
  }

  /** What a filling does with the open items is feasible for the window's own instance, and conversely. */
  lemma FillingIsLocal(f: Schedule, s: Schedule, precedence: seq<(int, int)>, local: seq<(int, int)>,
                       capacity: seq<real>)
    requires IdleWhereKept(f, s) && LocalPairs(local, precedence, s)
    ensures IsFilling(f, s, precedence, capacity) <==> Feasible(PickEntries(f, s), Holes(s), local, capacity)
  {
    var e := PickEntries(f, s);
    forall t | 0 <= t < |capacity| ensures Occupancy(e, t) == Occupancy(f, t) { PickedOccupancy(f, s, t); }
    PickedInPeriods(f, s, |capacity|);
    PickedPairs(f, s, precedence, local);
  }

  lemma PickedInPeriods(f: Schedule, s: Schedule, periods: nat)
    requires IdleWhereKept(f, s)
    ensures InPeriods(f, |s|, periods) <==> InPeriods(PickEntries(f, s), Holes(s), periods)
  {
    forall b | 0 <= b < |s| && s[b] == -1 ensures Rank(s, b) < Holes(s) && PickEntries(f, s)[Rank(s, b)] == f[b] {
      PickedEntry(f, s, b);
    }
    forall i | 0 <= i < Holes(s) ensures exists b :: 0 <= b < |s| && PickEntries(f, s)[i] == f[b] {
      var b := PickedFrom(f, s, i);
    }
  }

  lemma PickedPairs(f: Schedule, s: Schedule, precedence: seq<(int, int)>, local: seq<(int, int)>)
    requires IdleWhereKept(f, s) && LocalPairs(local, precedence, s)
    ensures (forall p :: p in precedence && Pending(p, s) && f[p.0] != -1 ==> f[p.1] != -1 && f[p.1] <= f[p.0])
      <==> RespectsPrecedence(PickEntries(f, s), local)
  {
    var e := PickEntries(f, s);
    forall p | Pending(p, s)
      ensures Rank(s, p.0) < |e| && Rank(s, p.1) < |e| && e[Rank(s, p.0)] == f[p.0] && e[Rank(s, p.1)] == f[p.1]
    {
      PickedEntry(f, s, p.0);
      PickedEntry(f, s, p.1);
    }
    forall q | q in local ensures exists p :: p in precedence && Renumbers(p, q, s) {
      assert ComesFromPair(q, precedence, s);
    }
  }

  /** What a committed window leaves in the schedule is what was chosen for it. */
  lemma {:induction false} ChosenIsPicked(s: Schedule, w: Schedule, t: nat, k: nat)
    requires |w| == Holes(s) && InPeriods(s, |s|, t) && InWindow(w, t, k)
    ensures PickEntries(Within(Merge(s, w), t, k), s) == Relative(w, t)
    decreases |s|
  {
    if s != [] {
      var l := |s| - 1;
      var own := Within(Merge(s, w), t, k);
      if s[l] == -1 {
        ChosenIsPicked(s[..l], w[..|w| - 1], t, k);
        assert own[..l] == Within(Merge(s[..l], w[..|w| - 1]), t, k);
        assert Relative(w, t) == Relative(w[..|w| - 1], t) + [own[l]];
      } else {
        ChosenIsPicked(s[..l], w, t, k);
        assert own[..l] == Within(Merge(s[..l], w), t, k);
      }
    }
  }

  /** A committed window is best for the items that were open. */
  lemma CommittedIsBest(value: seq<real>, precedence: seq<(int, int)>, local: seq<(int, int)>, capacity: seq<real>,
                        rate: real, t: nat, k: nat, s: Schedule, w: Schedule)
    requires rate > -1.0 && t + k <= |capacity| && |value| == |s| && |w| == Holes(s)
    requires InPeriods(s, |s|, t) && InWindow(w, t, k) && LocalPairs(local, precedence, s)
    requires IsBest(Relative(w, t), |w|, Pick(value, s), local, capacity[t..t + k], rate, t)
    ensures WindowIsBest(value, precedence, capacity, rate, Merge(s, w), t, k)
  {
    MergedBefore(s, w, t, k);
    ChosenIsPicked(s, w, t, k);
    BestIsBestFilling(value, precedence, local, capacity[t..t + k], rate, t, s, Within(Merge(s, w), t, k));
  }

  lemma BestIsBestFilling(value: seq<real>, precedence: seq<(int, int)>, local: seq<(int, int)>, capacity: seq<real>,
                          rate: real, t: nat, s: Schedule, f: Schedule)
    requires rate > -1.0 && |value| == |s| && IdleWhereKept(f, s) && LocalPairs(local, precedence, s)
    requires IsBest(PickEntries(f, s), Holes(s), Pick(value, s), local, capacity, rate, t)
    ensures FillsBest(f, s, value, precedence, capacity, rate, t)
  {
    FillingIsLocal(f, s, precedence, local, capacity);
    PickedNpv(value, rate, t, f, s);
    forall g | IsFilling(g, s, precedence, capacity) ensures Npv(value, rate, t, g) <= Npv(value, rate, t, f) {
      FillingIsLocal(g, s, precedence, local, capacity);
      PickedNpv(value, rate, t, g, s);
    }
  }

  /** Committing a window at `t` changes nothing that was there before `t`, and what it adds lies in the window. */
  lemma MergedBefore(s: Schedule, w: Schedule, t: nat, k: nat)
    requires |w| == Holes(s) && InPeriods(s, |s|, t) && InWindow(w, t, k)
    ensures Before(Merge(s, w), t) == s && IdleWhereKept(Within(Merge(s, w), t, k), s)
  {
    MergeGoesOn(s, w, t, k);
    GoesOnFrom(s, Merge(s, w), t, k);
  }

  /** `m` is `s` with some open items scheduled in the `k` periods from `t`. */
  predicate GoesOn(s: Schedule, m: Schedule, t: nat, k: nat) {
    |m| == |s| && forall b :: 0 <= b < |s| ==>
      -1 <= s[b] < t && if s[b] == -1 then m[b] == -1 || t <= m[b] < t + k else m[b] == s[b]
  }

  lemma MergeGoesOn(s: Schedule, w: Schedule, t: nat, k: nat)
    requires |w| == Holes(s) && InPeriods(s, |s|, t) && InWindow(w, t, k)
    ensures GoesOn(s, Merge(s, w), t, k)
  {
    forall b | 0 <= b < |s| ensures
      if s[b] == -1 then Merge(s, w)[b] == -1 || t <= Merge(s, w)[b] < t + k else Merge(s, w)[b] == s[b]
    {
      MergeAt(s, w, b);
    }
  }

  lemma GoesOnFrom(s: Schedule, m: Schedule, t: nat, k: nat)
    requires GoesOn(s, m, t, k)
    ensures Before(m, t) == s && IdleWhereKept(Within(m, t, k), s)
  {
  }

  lemma GoesOnUnchanged(s: Schedule, m: Schedule, t: nat, k: nat, u: nat, v: nat)
    requires GoesOn(s, m, t, k) && u + v <= t
    ensures Before(m, u) == Before(s, u) && Within(m, u, v) == Within(s, u, v)
  {
  }

  /** One more window rolled. */
  lemma RolledFurther(value: seq<real>, precedence: seq<(int, int)>, local: seq<(int, int)>, capacity: seq<real>,
                      rate: real, window: nat, t: nat, k: nat, s: Schedule, w: Schedule)
    requires rate > -1.0 && window >= 1 && t < |capacity| && |value| == |s| && |w| == Holes(s)
    requires StartsWindow(window, t) && k == SmallerNat(window, |capacity| - t)
    requires InPeriods(s, |s|, t) && InWindow(w, t, k) && LocalPairs(local, precedence, s)
    requires IsBest(Relative(w, t), |w|, Pick(value, s), local, capacity[t..t + k], rate, t)
    requires Rolled(value, precedence, capacity, rate, window, t, s)
    ensures RollingWindows(value, precedence, capacity, rate, window, t + k, Merge(s, w))
  {
    CommittedIsBest(value, precedence, local, capacity, rate, t, k, s, w);
    MergeGoesOn(s, w, t, k);
    RolledOn(value, precedence, capacity, rate, window, t, k, s, Merge(s, w));
  }

  lemma RolledOn(value: seq<real>, precedence: seq<(int, int)>, capacity: seq<real>, rate: real, window: nat, t: nat,
                 k: nat, s: Schedule, m: Schedule)
    requires rate > -1.0 && window >= 1 && t < |capacity| && GoesOn(s, m, t, k)
    requires StartsWindow(window, t) && k == SmallerNat(window, |capacity| - t)
    requires Rolled(value, precedence, capacity, rate, window, t, s)
    requires WindowIsBest(value, precedence, capacity, rate, m, t, k)
    ensures RollingWindows(value, precedence, capacity, rate, window, t + k, m)
  {
    forall u: nat | u < t + k && StartsWindow(window, u)
      ensures WindowIsBest(value, precedence, capacity, rate, m, u, SmallerNat(window, |capacity| - u))
    {
      ThisOrEarlier(u, t, k, window);
      if u < t { StillBest(value, precedence, capacity, rate, s, m, t, k, u, window); }
    }
  }

  lemma ThisOrEarlier(u: nat, t: nat, k: nat, window: nat)
    requires window >= 1 && StartsWindow(window, u) && StartsWindow(window, t) && u < t + k && k <= window
    ensures u == t || u + window <= t
  {
    if t < u { EarlierWindow(t, u, window); }
    if u < t { EarlierWindow(u, t, window); }
  }

  lemma StillBest(value: seq<real>, precedence: seq<(int, int)>, capacity: seq<real>, rate: real, s: Schedule,
                  m: Schedule, t: nat, k: nat, u: nat, v: nat)
    requires rate > -1.0 && GoesOn(s, m, t, k) && u + v <= t <= |capacity|
    requires WindowIsBest(value, precedence, capacity, rate, s, u, v)
    ensures WindowIsBest(value, precedence, capacity, rate, m, u, v)
  {
    GoesOnUnchanged(s, m, t, k, u, v);
  }

  lemma {:induction false} EarlierWindow(u: nat, t: nat, window: nat)
    requires window >= 1 && StartsWindow(window, u) && StartsWindow(window, t) && u < t
    ensures u + window <= t
    decreases t
  {
    if u > 0 { EarlierWindow(u - window, t - window, window); }
  }

  /** Once everything is scheduled, the later windows have nothing to do. */
  lemma NothingLeft(value: seq<real>, precedence: seq<(int, int)>, capacity: seq<real>, rate: real, s: Schedule,
                    t: nat, w: nat)
    requires rate > -1.0 && |value| == |s| && t + w <= |capacity| && NonNegative(capacity)
    requires forall b :: 0 <= b < |s| ==> 0 <= s[b] < t
    ensures WindowIsBest(value, precedence, capacity, rate, s, t, w)
  {
    var idle := Unscheduled(|s|);
    assert Within(s, t, w) == idle && Before(s, t) == s;
    EmptyScheduleFeasible(|s|, value, precedence, capacity[t..t + w], rate, t);
    forall g: Schedule | IsFilling(g, s, precedence, capacity[t..t + w])
      ensures Npv(value, rate, t, g) <= Npv(value, rate, t, idle)
    {
      assert g == idle;
    }
  }

  // ---------------------------------------------------------------- the loop

  /** What one committed window contributes: feasibility one window further on, and exactly its own value. */
  lemma CommitWindow(s: Schedule, w: Schedule, n: nat, value: seq<real>, precedence: seq<(int, int)>,
                     local: seq<(int, int)>, capacity: seq<real>, rate: real, t: nat, k: nat)
    requires rate > -1.0 && NonNegative(capacity) && t + k <= |capacity| && |value| == n && |w| == Holes(s)
    requires Feasible(s, n, precedence, capacity[..t]) && InWindow(w, t, k) && LocalPairs(local, precedence, s)
    requires IsBest(Relative(w, t), |w|, Pick(value, s), local, capacity[t..t + k], rate, t)
    ensures Feasible(Merge(s, w), n, precedence, capacity[..t + k])
    ensures Npv(value, rate, 0, Merge(s, w)) ==
      Npv(value, rate, 0, s) + Npv(Pick(value, s), rate, t, Relative(w, t))
    ensures Npv(Pick(value, s), rate, t, Relative(w, t)) >= 0.0
  {
    CommitFeasible(s, w, n, precedence, local, capacity, t, k);
    MergeNpv(value, rate, s, w);
    RelativeNpv(Pick(value, s), rate, t, k, w);
    EmptyScheduleFeasible(|w|, Pick(value, s), local, capacity[t..t + k], rate, t);
  }

  /** One pass of the rolling loop: solve the window at `t` over the open items and commit it. */
  method RollWindow(value: seq<real>, precedence: seq<(int, int)>, predOf: map<int, seq<int>>, capacity: seq<real>,
                    rate: real, t: nat, w: nat, period0: Schedule, scheduled0: seq<bool>)
    returns (
      ok: bool, npv: real, period: Schedule, scheduled: seq<bool>, ghost chosen: Schedule, ghost local: seq<(int, int)>)
    requires rate > -1.0 && NonNegative(capacity) && t + w <= |capacity| && |period0| == |value| == |scheduled0|
    requires forall i :: 0 <= i < |period0| ==> (scheduled0[i] <==> period0[i] != -1)
    requires PredecessorMap(predOf, precedence) && Feasible(period0, |value|, precedence, capacity[..t])
    ensures ok <==> !RaisesIndexError(precedence, period0)
    ensures ok ==> |chosen| == Holes(period0) && InWindow(chosen, t, w) && LocalPairs(local, precedence, period0)
    ensures ok ==> IsBest(Relative(chosen, t), |chosen|, Pick(value, period0), local, capacity[t..t + w], rate, t)
    ensures ok ==> npv == Npv(Pick(value, period0), rate, t, Relative(chosen, t))
    ensures ok ==> period == Merge(period0, chosen) && |scheduled| == |period|
    ensures ok ==> forall i :: 0 <= i < |period| ==> (scheduled[i] <==> period[i] != -1)
  {
    npv, period, scheduled, chosen := 0.0, period0, scheduled0, [];
    var candidates, localOf := ListCandidates(period, scheduled);
    var pairs;
    ok, pairs := BuildLocalPairs(candidates, localOf, predOf, period, scheduled, precedence);
    local := pairs;
    if !ok { return; }
    LocalPairsInRange(pairs, precedence, period);
    var picked := PickValues(value, candidates, localOf, period);
    var solved, periods;
    solved, npv, periods := SolveWindow(picked, pairs, capacity[t..t + w], rate, t);
    chosen := periods;
    period, scheduled := Commit(candidates, localOf, periods, period, scheduled);
  }

  /** What the rolling loop keeps: the schedule committed so far is feasible for the periods passed, the total is its
      value, once one window has covered everything it is a best schedule, and where every window loses it is empty. */
  ghost predicate RollingState(value: seq<real>, precedence: seq<(int, int)>, capacity: seq<real>, rate: real,
                               window: nat, t: nat, period: Schedule, npv: real)
    requires rate > -1.0
  {
    && t <= |capacity|
    && Feasible(period, |value|, precedence, capacity[..t])
    && npv == Npv(value, rate, 0, period) && npv >= 0.0
    && (t == 0 ==> period == Unscheduled(|value|))
    && (t > 0 && window >= |capacity| ==>
          t == |capacity| && IsBest(period, |value|, value, precedence, capacity, rate, 0))
    && (Myopic(value, precedence, capacity, rate, window) ==> period == Unscheduled(|value|))
  }

  lemma RollingStep(value: seq<real>, precedence: seq<(int, int)>, capacity: seq<real>, rate: real, window: nat,
                    t: nat, period: Schedule, npv: real, w: nat, chosen: Schedule, local: seq<(int, int)>)
    requires rate > -1.0 && NonNegative(capacity) && window >= 1 && t < |capacity|
    requires RollingState(value, precedence, capacity, rate, window, t, period, npv)
    requires w == SmallerNat(window, |capacity| - t)
    requires |chosen| == Holes(period) && InWindow(chosen, t, w) && LocalPairs(local, precedence, period)
    requires IsBest(Relative(chosen, t), |chosen|, Pick(value, period), local, capacity[t..t + w], rate, t)
    ensures RollingState(value, precedence, capacity, rate, window, t + w, Merge(period, chosen),
              npv + Npv(Pick(value, period), rate, t, Relative(chosen, t)))
  {
    var n := |value|;
    CommitWindow(period, chosen, n, value, precedence, local, capacity, rate, t, w);
    if window >= |capacity| {
      assert capacity[0..|capacity|] == capacity;
      WholeHorizonStep(n, chosen, value, precedence, local, capacity, rate);
    }
    if Myopic(value, precedence, capacity, rate, window) {
      LosingWindow(value, precedence, local, capacity, rate, t, w, period, chosen);
    }
  }

  lemma WholeHorizonStep(n: nat, w: Schedule, value: seq<real>, precedence: seq<(int, int)>, local: seq<(int, int)>,
                         capacity: seq<real>, rate: real)
    requires rate > -1.0 && |value| == n && |w| == Holes(Unscheduled(n)) && InWindow(w, 0, |capacity|)
    requires LocalPairs(local, precedence, Unscheduled(n))
    requires IsBest(Relative(w, 0), |w|, Pick(value, Unscheduled(n)), local, capacity, rate, 0)
    ensures IsBest(Merge(Unscheduled(n), w), n, value, precedence, capacity, rate, 0)
  {
    NothingScheduledYet(n, Unscheduled(n), value);
    NothingScheduledYet(n, w, value);
    FirstWindowIsBest(w, n, value, precedence, local, capacity, rate);
  }

  lemma RolledOut(value: seq<real>, precedence: seq<(int, int)>, capacity: seq<real>, rate: real, window: nat,
                  t: nat, period: Schedule)
    requires rate > -1.0 && NonNegative(capacity) && window >= 1 && InPeriods(period, |value|, t)
    requires RollingWindows(value, precedence, capacity, rate, window, t, period)
    requires t == |capacity| || forall b :: 0 <= b < |period| ==> period[b] != -1
    ensures Rolled(value, precedence, capacity, rate, window, |capacity|, period)
  {
    forall u: nat | u < |capacity| && StartsWindow(window, u)
      ensures WindowIsBest(value, precedence, capacity, rate, period, u, SmallerNat(window, |capacity| - u))
    {
      if u >= t {
        NothingLeft(value, precedence, capacity, rate, period, u, SmallerNat(window, |capacity| - u));
      }
    }
  }

  lemma RollingDone(value: seq<real>, precedence: seq<(int, int)>, capacity: seq<real>, rate: real, window: nat,
                    t: nat, period: Schedule, npv: real)
    requires rate > -1.0 && NonNegative(capacity) && window >= 1
    requires RollingState(value, precedence, capacity, rate, window, t, period, npv)
    requires t == |capacity| || forall b :: 0 <= b < |period| ==> period[b] != -1
    ensures Feasible(period, |value|, precedence, capacity)
    ensures window >= |capacity| ==> IsBest(period, |value|, value, precedence, capacity, rate, 0)
    ensures Myopic(value, precedence, capacity, rate, window) ==> npv == 0.0 && period == Unscheduled(|value|)
  {
    EmptyScheduleFeasible(|value|, value, precedence, capacity, rate, 0);
    FeasibleEarlier(period, |value|, precedence, capacity, t);
    if t == 0 {
      NothingScheduledYet(|value|, period, value);
      forall other | Feasible(other, |value|, precedence, capacity) ensures other == period {
        if |value| > 0 { assert |capacity| == 0; assert other == Unscheduled(|value|); }
      }
    }
  }

  /** The state of the loop, with the flags that mirror the schedule. */
  ghost predicate Rolls(value: seq<real>, precedence: seq<(int, int)>, capacity: seq<real>, rate: real, window: nat,
                        t: nat, npv: real, period: Schedule, scheduled: seq<bool>)
    requires rate > -1.0 && window >= 1
  {
    && RollingState(value, precedence, capacity, rate, window, t, period, npv)
    && RollingWindows(value, precedence, capacity, rate, window, t, period)
    && |scheduled| == |period| && forall i :: 0 <= i < |period| ==> (scheduled[i] <==> period[i] != -1)
  }

  /** One turn of the loop. */
  method RollOn(value: seq<real>, precedence: seq<(int, int)>, predOf: map<int, seq<int>>, capacity: seq<real>,
                rate: real, window: nat, t: nat, w: nat, npv0: real, period0: Schedule, scheduled0: seq<bool>)
    returns (ok: bool, npv: real, period: Schedule, scheduled: seq<bool>)
    requires rate > -1.0 && NonNegative(capacity) && window >= 1 && PredecessorMap(predOf, precedence)
    requires Rolls(value, precedence, capacity, rate, window, t, npv0, period0, scheduled0)
    requires t < |capacity| && w == SmallerNat(window, |capacity| - t)
    ensures ok <==> !RaisesIndexError(precedence, period0)
    ensures ok ==> Rolls(value, precedence, capacity, rate, window, t + w, npv, period, scheduled)
  {
    ghost var chosen, local;
    ok, npv, period, scheduled, chosen, local := RollWindow(
      value, precedence, predOf, capacity, rate, t, w, period0, scheduled0);
    if !ok { return; }
    RollingStep(value, precedence, capacity, rate, window, t, period0, npv0, w, chosen, local);
    RolledFurther(value, precedence, local, capacity, rate, window, t, w, period0, chosen);
    npv := npv0 + npv;
  }

  /** The rolling horizon, for any window size. */
  method RollingHorizon(value: seq<real>, precedence: seq<(int, int)>, capacity: seq<real>, rate: real, window: nat)
    returns (ok: bool, npv: real, period: Schedule)
    requires rate > -1.0 && NonNegative(capacity) && window >= 1
    ensures ok <==> |capacity| == 0 || !RaisesIndexError(precedence, Unscheduled(|value|))
    ensures ok ==> Feasible(period, |value|, precedence, capacity)
    ensures ok ==> npv == Npv(value, rate, 0, period) && npv >= 0.0
    ensures ok ==> forall best :: IsBest(best, |value|, value, precedence, capacity, rate, 0) ==>
              npv <= Npv(value, rate, 0, best)
    ensures ok && window >= |capacity| ==> IsBest(period, |value|, value, precedence, capacity, rate, 0)
    ensures ok && Myopic(value, precedence, capacity, rate, window) ==> npv == 0.0 && period == Unscheduled(|value|)
    ensures ok ==> Rolled(value, precedence, capacity, rate, window, |capacity|, period)
  {
    var n := |value|;
    var predOf := GroupPredecessors(precedence);
    period, npv, ok := Unscheduled(n), 0.0, true;
    var scheduled := seq(n, i => false);
    var t := 0;
    EmptyScheduleFeasible(n, value, precedence, capacity[..0], rate, 0);
    while t < |capacity|
      invariant t <= |capacity| && |period| == |scheduled| == n
      invariant Rolls(value, precedence, capacity, rate, window, t, npv, period, scheduled)
      invariant t > 0 ==> !RaisesIndexError(precedence, Unscheduled(n))
      decreases |capacity| - t
    {
      var w := SmallerNat(window, |capacity| - t);
      if forall b :: 0 <= b < n ==> scheduled[b] {
        break;
      }
      ok, npv, period, scheduled := RollOn(
        value, precedence, predOf, capacity, rate, window, t, w, npv, period, scheduled);
      if !ok { return; }
      t := t + w;
    }
    RollingDone(value, precedence, capacity, rate, window, t, period, npv);
    RolledOut(value, precedence, capacity, rate, window, t, period);
  }

  // ---------------------------------------------------------------- the two modes

  /** The first input check that fails, if any. */
  function InputError(mode: string, nPeriods: int, rate: real, capacity: seq<real>): (e: Option<ScheduleError>)
    ensures e.None? <==>
      (mode == "exact" || mode == "rolling") && rate > -1.0 && |capacity| == nPeriods >= 1
      && forall t :: 0 <= t < |capacity| ==> capacity[t] >= 0.0
  {
    if mode != "exact" && mode != "rolling" then Some(UnknownMode)
    else if nPeriods < 1 then Some(BadPeriods)
    else if rate <= -1.0 then Some(BadDiscount)
    else if |capacity| != nPeriods then Some(CapacityLength)
    else if !NonNegative(capacity) then Some(NegativeCapacity)
    else None
  }

  /** The window size of rolling mode for `n` items: the longest that holds at most 400 (item x period) binaries, but at
      least one period. */
  function RollingWindow(n: nat): (w: nat)
    ensures w >= 1 && (w > 1 ==> w * n <= 400)
    ensures n >= 1 ==> (w + 1) * n > 400
    ensures n == 0 ==> w == 400
  {
    LargerNat(1, DIRECT_MILP_LIMIT / LargerNat(n, 1))
  }

  /** Exact mode refuses a pair that names no item; otherwise it returns a best schedule and its value. */
  ghost predicate ExactAnswer(r: Result<(real, Schedule), ScheduleError>, value: seq<real>, precedence: seq<(int, int)>,
                              capacity: seq<real>, rate: real)
    requires rate > -1.0
  {
    if !PairsInRange(|value|, precedence) then r == Err(BadPair)
    else
      && r.Ok? && r.value.0 == Npv(value, rate, 0, r.value.1)
      && IsBest(r.value.1, |value|, value, precedence, capacity, rate, 0)
  }

  /** Rolling mode only fails on an index off the array: a pair whose dependent is no item is ignored, and a pair whose
      predecessor is a negative index is dropped. Its schedule respects every pair between two items, is never worth
      less than nothing nor more than a best schedule, and is best when one window covers the horizon; but where every
      window by itself loses, it schedules nothing, whatever the whole horizon is worth. In every window it does the
      best that can be done in that window with the items left open. */
  ghost predicate RollingAnswer(r: Result<(real, Schedule), ScheduleError>, value: seq<real>,
                                precedence: seq<(int, int)>,
                                capacity: seq<real>, rate: real)
    requires rate > -1.0
  {
    if RaisesIndexError(precedence, Unscheduled(|value|)) then r == Err(IndexError)
    else
      && r.Ok? && r.value.0 == Npv(value, rate, 0, r.value.1) && r.value.0 >= 0.0
      && Feasible(r.value.1, |value|, precedence, capacity)
      && (forall best :: IsBest(best, |value|, value, precedence, capacity, rate, 0) ==>
            r.value.0 <= Npv(value, rate, 0, best))
      && (|capacity| <= RollingWindow(|value|) ==> IsBest(r.value.1, |value|, value, precedence, capacity, rate, 0))
      && (Myopic(value, precedence, capacity, rate, RollingWindow(|value|)) ==>
            r.value == (0.0, Unscheduled(|value|)))
      && Rolled(value, precedence, capacity, rate, RollingWindow(|value|), |capacity|, r.value.1)
  }

  /** The time-phased schedule: the exact optimum over the whole horizon, or, only on request, the rolling
      approximation. */
  method ScheduleActivities(value: seq<real>, precedence: seq<(int, int)>, capacity: seq<real>, nPeriods: int,
                            rate: real, mode: string)
    returns (r: Result<(real, Schedule), ScheduleError>)
    ensures InputError(mode, nPeriods, rate, capacity).Some? ==>
      r == Err(InputError(mode, nPeriods, rate, capacity).value)
    ensures InputError(mode, nPeriods, rate, capacity).None? && mode == "exact" ==>
              ExactAnswer(r, value, precedence, capacity, rate)
    ensures InputError(mode, nPeriods, rate, capacity).None? && mode == "rolling" ==>
              RollingAnswer(r, value, precedence, capacity, rate)
  {
    var bad := InputError(mode, nPeriods, rate, capacity);
    if bad.Some? { return Err(bad.value); }
    if mode == "exact" {
      var ok, npv, period := SolveWindow(value, precedence, capacity, rate, 0);
      if !ok { return Err(BadPair); }
      assert Relative(period, 0) == period;
      r := Ok((npv, period));
    } else {
      var ok, npv, period := RollingHorizon(value, precedence, capacity, rate, RollingWindow(|value|));
      r := if ok then Ok((npv, period)) else Err(IndexError);
    }
  }
}
