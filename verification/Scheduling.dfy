/**
 * Time-phased scheduling as a 0/1 program: the rows built for one window of periods,
 * and what a 0/1 vector satisfying them means.
 */
module ScheduleProgram {
  import opened Outcomes
  import opened Sums
  import opened Vectors

  // ---------------------------------------------------------------- schedules

  /** A schedule gives each item its period, or -1 when the item is never scheduled. */
  type Schedule = seq<int>

  /** How many items are scheduled in period `t`. */
  function Occupancy(s: Schedule, t: int): nat {
    if s == [] then 0 else Occupancy(s[..|s| - 1], t) + (if s[|s| - 1] == t then 1 else 0)
  }

  predicate InPeriods(s: Schedule, n: nat, periods: nat) {
    |s| == n && forall b :: 0 <= b < n ==> -1 <= s[b] < periods
  }

  predicate WithinCapacity(s: Schedule, capacity: seq<real>) {
    forall t :: 0 <= t < |capacity| ==> Occupancy(s, t) <= capacity[t].Floor
  }

  /** Whenever an item is scheduled, so is each predecessor, and no later. */
  predicate RespectsPrecedence(s: Schedule, precedence: seq<(int, int)>) {
    forall p :: p in precedence && 0 <= p.0 < |s| && 0 <= p.1 < |s| && s[p.0] != -1 ==>
      s[p.1] != -1 && s[p.1] <= s[p.0]
  }

  predicate Feasible(s: Schedule, n: nat, precedence: seq<(int, int)>, capacity: seq<real>) {
    InPeriods(s, n, |capacity|) && WithinCapacity(s, capacity) && RespectsPrecedence(s, precedence)
  }

  function Power(base: real, k: nat): (r: real)
    ensures base > 0.0 ==> r > 0.0
  {
    if k == 0 then 1.0 else base * Power(base, k - 1)
  }

  /** The discount factor of global period `k`. */
  function Discount(rate: real, k: nat): real
    requires rate > -1.0
  {
    1.0 / Power(1.0 + rate, k)
  }

  /** A value is worth itself now, and each period later it is worth one rate less. */
  lemma DiscountCompounds(rate: real, k: nat)
    requires rate > -1.0
    ensures Discount(rate, 0) == 1.0
    ensures Discount(rate, k + 1) * (1.0 + rate) == Discount(rate, k)
  {
    OneFactorLess(1.0 + rate, Power(1.0 + rate, k));
  }

  lemma OneFactorLess(base: real, p: real)
    requires base > 0.0 && p > 0.0
    ensures base * p > 0.0 && (1.0 / (base * p)) * base == 1.0 / p
  {
    var q := 1.0 / (base * p);
    assert q * (base * p) == 1.0;
    assert (q * base) * p == 1.0;
  }

  function Earned(value: seq<real>, rate: real, offset: nat, s: Schedule, b: int): real
    requires rate > -1.0
  {
    if 0 <= b < |s| && b < |value| && s[b] >= 0 then value[b] * Discount(rate, offset + s[b]) else 0.0
  }

  /** Net present value of a schedule whose period 0 is global period `offset`. */
  function Npv(value: seq<real>, rate: real, offset: nat, s: Schedule): real
    requires rate > -1.0
  {
    Sum(|value|, b => Earned(value, rate, offset, s, b))
  }

  /** No feasible schedule is worth more. */
  ghost predicate IsBest(s: Schedule, n: nat, value: seq<real>, precedence: seq<(int, int)>, capacity: seq<real>,
                         rate: real, offset: nat)
    requires rate > -1.0
  {
    && Feasible(s, n, precedence, capacity)
    && forall other :: Feasible(other, n, precedence, capacity) ==>
      Npv(value, rate, offset, other) <= Npv(value, rate, offset, s)
  }

  // ---------------------------------------------------------------- flattened 0/1 vectors

  /** The cell of item `b`, period `t` in a flattened vector. */
  function Cell(x: seq<real>, periods: nat, b: int, t: int): real {
    var i := b * periods + t;
    if 0 <= i < |x| then x[i] else 0.0
  }

  /** The flattened row with cell `f(b, t)` at item `b`, period `t`. */
  ghost predicate IsRow(row: seq<real>, n: nat, periods: nat, f: (int, int) -> real) {
    |row| == n * periods && forall b, t :: 0 <= b < n && 0 <= t < periods ==> Cell(row, periods, b, t) == f(b, t)
  }

  lemma CellIndex(n: nat, periods: nat, b: int, t: int)
    requires 0 <= b < n && 0 <= t < periods
    ensures 0 <= b * periods + t < n * periods
  {
    assert (b + 1) * periods <= n * periods by { assert (n - b - 1) * periods >= 0; }
  }

  lemma SameIndex(periods: nat, b: int, t: int, b': int, t': int)
    requires 0 <= t < periods && 0 <= t' < periods && b * periods + t == b' * periods + t'
    ensures b == b' && t == t'
  {
    assert (b' - b) * periods == b' * periods - b * periods;
    assert (b - b') * periods == b * periods - b' * periods;
    if b < b' { Multiple(b' - b, periods); }
    if b' < b { Multiple(b - b', periods); }
  }

  lemma Multiple(d: int, p: int)
    requires d >= 1 && p >= 0
    ensures d * p >= p
  {
  }

  function FlatTerms(row: seq<real>, x: seq<real>): int -> real {
    i => if 0 <= i < |row| && i < |x| then row[i] * x[i] else 0.0
  }

  function CellTerms(row: seq<real>, x: seq<real>, periods: nat): (int, int) -> real {
    (b, t) => Cell(row, periods, b, t) * Cell(x, periods, b, t)
  }

  /** A flattened dot product is a double sum over items and periods. */
  lemma {:induction false} DotIsDoubleSum(row: seq<real>, x: seq<real>, n: nat, periods: nat, k: nat)
    requires |row| == |x| == n * periods && k <= n
    ensures Sum(k * periods, FlatTerms(row, x)) == Sum2(k, periods, CellTerms(row, x, periods))
  {
    if k > 0 {
      DotIsDoubleSum(row, x, n, periods, k - 1);
      OneMoreItem(n, periods, k - 1, (k - 1) * periods);
      NextItem(row, x, n, periods, k - 1, (k - 1) * periods);
    }
  }

  lemma OneMoreItem(n: nat, periods: nat, b: nat, base: nat)
    requires b < n && base == b * periods
    ensures base + periods == (b + 1) * periods <= n * periods
  {
    Multiple2(b + 1, n, periods);
  }

  lemma Multiple2(a: int, b: int, p: int)
    requires a <= b && p >= 0
    ensures a * p <= b * p
  {
    assert (b - a) * p >= 0;
  }

  lemma NextItem(row: seq<real>, x: seq<real>, n: nat, periods: nat, b: nat, base: nat)
    requires base == b * periods && |row| == |x| && base + periods <= |row|
    ensures Sum(base + periods, FlatTerms(row, x)) ==
      Sum(base, FlatTerms(row, x)) + RowSum(periods, CellTerms(row, x, periods), b)
  {
    forall t | 0 <= t < periods ensures CellTerms(row, x, periods)(b, t) == FlatTerms(row, x)(base + t) {
      CellTerm(row, x, periods, b, base, t);
    }
    ItemTerms(FlatTerms(row, x), CellTerms(row, x, periods), base, periods, b);
  }

  lemma CellTerm(row: seq<real>, x: seq<real>, periods: nat, b: nat, base: nat, t: int)
    requires base == b * periods && 0 <= t < periods && base + periods <= |row| == |x|
    ensures Cell(row, periods, b, t) * Cell(x, periods, b, t) == row[base + t] * x[base + t]
  {
  }

  /** The next item's row of terms. */
  lemma ItemTerms(f: int -> real, g: (int, int) -> real, base: nat, periods: nat, b: nat)
    requires forall t :: 0 <= t < periods ==> g(b, t) == f(base + t)
    ensures Sum(base + periods, f) == Sum(base, f) + RowSum(periods, g, b)
  {
    SumSplit(base, periods, f, t => g(b, t));
  }

  // ---------------------------------------------------------------- encoding and decoding

  function OneHot(periods: nat, at: int): (r: seq<real>)
    ensures |r| == periods && forall t :: 0 <= t < periods ==> r[t] == if t == at then 1.0 else 0.0
  {
    seq(periods, t => if t == at then 1.0 else 0.0)
  }

  /** The flattened 0/1 vector of a schedule. */
  function Encode(s: Schedule, periods: nat): (x: seq<real>)
    ensures |x| == |s| * periods
  {
    if s == [] then [] else
    assert |s| * periods == (|s| - 1) * periods + periods;
    Encode(s[..|s| - 1], periods) + OneHot(periods, s[|s| - 1])
  }

  ghost predicate IsEncoding(x: seq<real>, s: Schedule, periods: nat) {
    && |x| == |s| * periods
    && forall b, t :: 0 <= b < |s| && 0 <= t < periods ==> Cell(x, periods, b, t) == if s[b] == t then 1.0 else 0.0
  }

  lemma {:induction false} EncodeEncodes(s: Schedule, periods: nat)
    ensures IsEncoding(Encode(s, periods), s, periods) && Binary(Encode(s, periods))
  {
    if s != [] {
      var n, prefix := |s| - 1, s[..|s| - 1];
      EncodeEncodes(prefix, periods);
      var x := Encode(s, periods);
      assert |s| * periods == n * periods + periods;
      forall b, t | 0 <= b < |s| && 0 <= t < periods
        ensures Cell(x, periods, b, t) == if s[b] == t then 1.0 else 0.0
      {
        CellIndex(|s|, periods, b, t);
        if b < n {
          CellIndex(n, periods, b, t);
          assert Cell(Encode(prefix, periods), periods, b, t) == Cell(x, periods, b, t);
        }
      }
    }
  }

  /** The first period from `t` on whose binary is set. */
  function FirstOn(x: seq<real>, periods: nat, b: int, t: nat): (r: int)
    requires t <= periods
    ensures r == -1 ==> forall k :: t <= k < periods ==> Cell(x, periods, b, k) <= 0.5
    ensures r != -1 ==> t <= r < periods && Cell(x, periods, b, r) > 0.5
    ensures forall k :: t <= k < r ==> Cell(x, periods, b, k) <= 0.5
    decreases periods - t
  {
    if t == periods then -1 else if Cell(x, periods, b, t) > 0.5 then t else FirstOn(x, periods, b, t + 1)
  }

  function Decode(x: seq<real>, n: nat, periods: nat): (s: Schedule)
    ensures InPeriods(s, n, periods)
    ensures forall b :: 0 <= b < n ==> s[b] == FirstOn(x, periods, b, 0)
  {
    seq(n, b requires 0 <= b < n => FirstOn(x, periods, b, 0))
  }

  /** Decoding undoes encoding, however the vector was obtained. */
  lemma DecodeEncoding(x: seq<real>, s: Schedule, periods: nat)
    requires IsEncoding(x, s, periods) && InPeriods(s, |s|, periods)
    ensures Decode(x, |s|, periods) == s
  {
    forall b | 0 <= b < |s| ensures FirstOn(x, periods, b, 0) == s[b] {
      var r := FirstOn(x, periods, b, 0);
      if s[b] != -1 { assert Cell(x, periods, b, s[b]) == 1.0; }
      if r != -1 { assert Cell(x, periods, b, r) == if s[b] == r then 1.0 else 0.0; }
    }
  }

  // ---------------------------------------------------------------- the rows of one window

  function OnceCell(b: int): (int, int) -> real {
    (i, t) => if i == b then 1.0 else 0.0
  }

  function CapacityCell(t: int): (int, int) -> real {
    (i, tau) => if tau == t then 1.0 else 0.0
  }

  function PrecedenceCell(b: int, pred: int, t: int): (int, int) -> real {
    (i, tau) => if tau > t then 0.0 else (if i == b then 1.0 else 0.0) - (if i == pred then 1.0 else 0.0)
  }

  function CellOf(x: seq<real>, periods: nat): (int, int) -> real {
    (b, t) => Cell(x, periods, b, t)
  }

  function Times2(f: (int, int) -> real, g: (int, int) -> real): (int, int) -> real {
    (i, j) => f(i, j) * g(i, j)
  }

  lemma RowDot(row: seq<real>, x: seq<real>, n: nat, periods: nat, f: (int, int) -> real)
    requires IsRow(row, n, periods, f) && |x| == n * periods
    ensures Dot(row, x) == Sum2(n, periods, Times2(f, CellOf(x, periods)))
  {
    DotIsDoubleSum(row, x, n, periods, n);
    SumExt(|row|, FlatTerms(row, x), i => if 0 <= i < |row| && i < |x| then row[i] * x[i] else 0.0);
    TermsOfCells(row, x, n, periods, f);
  }

  lemma TermsOfCells(row: seq<real>, x: seq<real>, n: nat, periods: nat, f: (int, int) -> real)
    requires IsRow(row, n, periods, f) && |x| == n * periods
    ensures Sum2(n, periods, CellTerms(row, x, periods)) == Sum2(n, periods, Times2(f, CellOf(x, periods)))
  {
    forall b, t | 0 <= b < n && 0 <= t < periods
      ensures CellTerms(row, x, periods)(b, t) == Times2(f, CellOf(x, periods))(b, t)
    {
      assert Cell(row, periods, b, t) == f(b, t);
    }
    Sum2Ext(n, periods, CellTerms(row, x, periods), Times2(f, CellOf(x, periods)));
  }

  /** How often item `b` has been scheduled by the end of period `t`. */
  function Cumulative(x: seq<real>, periods: nat, b: int, t: nat): real {
    Sum(t, tau => Cell(x, periods, b, tau))
  }

  lemma OnceRowMeaning(row: seq<real>, x: seq<real>, n: nat, periods: nat, b: int)
    requires IsRow(row, n, periods, OnceCell(b)) && |x| == n * periods && 0 <= b < n
    ensures Dot(row, x) == Cumulative(x, periods, b, periods)
  {
    var g := Times2(OnceCell(b), CellOf(x, periods));
    RowDot(row, x, n, periods, OnceCell(b));
    var zero := (i: int) => 0.0;
    forall i | 0 <= i < n && i != b ensures RowSum(periods, g, i) == 0.0 { SumZero(periods, t => g(i, t)); }
    SumUpdate(n, b, zero, i => RowSum(periods, g, i));
    SumZero(n, zero);
    SumExt(periods, t => g(b, t), tau => Cell(x, periods, b, tau));
  }

  lemma CapacityRowMeaning(row: seq<real>, x: seq<real>, n: nat, periods: nat, t: int)
    requires IsRow(row, n, periods, CapacityCell(t)) && |x| == n * periods && 0 <= t < periods
    ensures Dot(row, x) == Sum(n, b => Cell(x, periods, b, t))
  {
    var g := Times2(CapacityCell(t), CellOf(x, periods));
    RowDot(row, x, n, periods, CapacityCell(t));
    var zero := (i: int) => 0.0;
    forall i | 0 <= i < n ensures RowSum(periods, g, i) == Cell(x, periods, i, t) {
      SumUpdate(periods, t, zero, tau => g(i, tau));
      SumZero(periods, zero);
    }
    SumExt(n, i => RowSum(periods, g, i), b => Cell(x, periods, b, t));
  }

  lemma {:induction false} ClippedSum(periods: nat, t: nat, f: int -> real, g: int -> real)
    requires t <= periods
    requires forall tau :: 0 <= tau < t ==> g(tau) == f(tau)
    requires forall tau :: t <= tau < periods ==> g(tau) == 0.0
    ensures Sum(periods, g) == Sum(t, f)
  {
    if periods == t { SumExt(t, g, f); } else { ClippedSum(periods - 1, t, f, g); }
  }

  lemma PrecedenceRowMeaning(row: seq<real>, x: seq<real>, n: nat, periods: nat, b: int, pred: int, t: nat)
    requires IsRow(row, n, periods, PrecedenceCell(b, pred, t)) && |x| == n * periods
    requires t < periods && 0 <= b < n && 0 <= pred < n
    ensures Dot(row, x) == Cumulative(x, periods, b, t + 1) - Cumulative(x, periods, pred, t + 1)
  {
    var cell := CellOf(x, periods);
    var g := Times2(PrecedenceCell(b, pred, t), cell);
    RowDot(row, x, n, periods, PrecedenceCell(b, pred, t));
    var only := (item: int) => (i: int, tau: int) => if i == item && tau <= t then cell(i, tau) else 0.0;
    var plus, minus := only(b), only(pred);
    Sum2Add(n, periods, g, minus, plus);
    ItemTotal(x, n, periods, b, t, plus);
    ItemTotal(x, n, periods, pred, t, minus);
  }

  lemma ItemTotal(x: seq<real>, n: nat, periods: nat, item: int, t: nat, f: (int, int) -> real)
    requires t < periods && 0 <= item < n
    requires forall i, tau :: f(i, tau) == if i == item && tau <= t then CellOf(x, periods)(i, tau) else 0.0
    ensures Sum2(n, periods, f) == Cumulative(x, periods, item, t + 1)
  {
    var zero := (i: int) => 0.0;
    forall i | 0 <= i < n && i != item ensures RowSum(periods, f, i) == 0.0 { SumZero(periods, tau => f(i, tau)); }
    SumUpdate(n, item, zero, i => RowSum(periods, f, i));
    SumZero(n, zero);
    ClippedSum(periods, t + 1, tau => Cell(x, periods, item, tau), tau => f(item, tau));
  }

  // ---------------------------------------------------------------- what the sums of an encoding are

  /** In an encoding, an item has been scheduled by `t` exactly once if its period is before `t`, else never. */
  lemma {:induction false} CumulativeOfEncoding(x: seq<real>, s: Schedule, periods: nat, b: int, t: nat)
    requires IsEncoding(x, s, periods) && 0 <= b < |s| && t <= periods && s[b] >= -1
    ensures Cumulative(x, periods, b, t) == if 0 <= s[b] < t then 1.0 else 0.0
  {
    if t > 0 {
      CumulativeOfEncoding(x, s, periods, b, t - 1);
      assert Cell(x, periods, b, t - 1) == if s[b] == t - 1 then 1.0 else 0.0;
    }
  }

  lemma {:induction false} OccupancyOfEncoding(x: seq<real>, s: Schedule, periods: nat, t: int, n: nat)
    requires IsEncoding(x, s, periods) && 0 <= t < periods && n <= |s|
    ensures Sum(n, b => Cell(x, periods, b, t)) == Occupancy(s[..n], t) as real
  {
    if n > 0 {
      OccupancyOfEncoding(x, s, periods, t, n - 1);
      assert s[..n][..n - 1] == s[..n - 1];
      assert Cell(x, periods, n - 1, t) == if s[n - 1] == t then 1.0 else 0.0;
    }
  }

  /** An item scheduled at most once in a 0/1 vector is scheduled exactly at its decoded period. */
  lemma OnceMeansEncoded(x: seq<real>, n: nat, periods: nat, b: int)
    requires |x| == n * periods && Binary(x) && 0 <= b < n
    requires Cumulative(x, periods, b, periods) <= 1.0
    ensures forall t :: 0 <= t < periods ==>
              Cell(x, periods, b, t) == if FirstOn(x, periods, b, 0) == t then 1.0 else 0.0
  {
    var first := FirstOn(x, periods, b, 0);
    forall t | 0 <= t < periods ensures Cell(x, periods, b, t) == if first == t then 1.0 else 0.0 {
      CellIndex(n, periods, b, t);
      if first != -1 && t != first {
        CellIndex(n, periods, b, first);
        TwoTerms(x, n, periods, b, first, t);
      }
    }
  }

  lemma TwoTerms(x: seq<real>, n: nat, periods: nat, b: int, i: int, j: int)
    requires |x| == n * periods && Binary(x) && 0 <= b < n && 0 <= i < periods && 0 <= j < periods && i != j
    ensures Cell(x, periods, b, i) + Cell(x, periods, b, j) <= Cumulative(x, periods, b, periods)
  {
    var f := tau => Cell(x, periods, b, tau);
    var g := tau => if tau == i then 0.0 else Cell(x, periods, b, tau);
    forall t | 0 <= t < periods ensures f(t) >= 0.0 && g(t) >= 0.0 { CellIndex(n, periods, b, t); }
    SumUpdate(periods, i, f, g);
    SumAtLeastTerm(periods, j, g);
  }

  // ---------------------------------------------------------------- the program's rows, in order

  ghost predicate OnceRows(rows: seq<seq<real>>, rhs: seq<real>, n: nat, periods: nat) {
    |rows| == |rhs| == n && forall b :: 0 <= b < n ==> IsRow(rows[b], n, periods, OnceCell(b)) && rhs[b] == 1.0
  }

  ghost predicate CapacityRows(rows: seq<seq<real>>, rhs: seq<real>, n: nat, capacity: seq<real>) {
    && |rows| == |rhs| == |capacity|
    && forall t :: 0 <= t < |rows| ==> IsRow(rows[t], n, |capacity|, CapacityCell(t)) && rhs[t] == capacity[t]
  }

  /** The rows of one precedence pair, one per period boundary. */
  ghost predicate PairRows(rows: seq<seq<real>>, rhs: seq<real>, n: nat, periods: nat, b: int, pred: int) {
    && |rows| == |rhs| == periods
    && forall t :: 0 <= t < |rows| ==> IsRow(rows[t], n, periods, PrecedenceCell(b, pred, t)) && rhs[t] == 0.0
  }

  ghost predicate PrecedenceRows(rows: seq<seq<real>>, rhs: seq<real>, n: nat, periods: nat,
                                 precedence: seq<(int, int)>)
    decreases |precedence|
  {
    if precedence == [] then rows == [] && rhs == [] else
    var p, k := precedence[|precedence| - 1], |rows| - periods;
    && |rows| == |rhs| && k >= 0
    && PrecedenceRows(rows[..k], rhs[..k], n, periods, precedence[..|precedence| - 1])
    && PairRows(rows[k..], rhs[k..], n, periods, p.0, p.1)
  }

  /** Rows of one window: each item at most once, then each period's capacity, then each precedence pair
      at each period boundary. */
  ghost predicate IsWindowProgram(rows: seq<seq<real>>, rhs: seq<real>, n: nat, precedence: seq<(int, int)>,
                                  capacity: seq<real>) {
    var periods := |capacity|;
    && |rows| == |rhs| >= n + periods
    && OnceRows(rows[..n], rhs[..n], n, periods)
    && CapacityRows(rows[n..][..periods], rhs[n..][..periods], n, capacity)
    && PrecedenceRows(rows[n..][periods..], rhs[n..][periods..], n, periods, precedence)
  }

  // ---------------------------------------------------------------- what the rows say

  ghost predicate OncePerItem(x: seq<real>, n: nat, periods: nat) {
    forall b :: 0 <= b < n ==> Cumulative(x, periods, b, periods) <= 1.0
  }

  function Load(x: seq<real>, n: nat, periods: nat, t: int): real {
    Sum(n, b => Cell(x, periods, b, t))
  }

  ghost predicate WithinLoads(x: seq<real>, n: nat, capacity: seq<real>) {
    forall t :: 0 <= t < |capacity| ==> Load(x, n, |capacity|, t) <= capacity[t]
  }

  /** At every period boundary `pred` has been scheduled at least as often as `b`. */
  ghost predicate NeverTrails(x: seq<real>, periods: nat, b: int, pred: int) {
    forall t :: 1 <= t <= periods ==> Cumulative(x, periods, b, t) <= Cumulative(x, periods, pred, t)
  }

  ghost predicate MeetsWindow(x: seq<real>, n: nat, precedence: seq<(int, int)>, capacity: seq<real>) {
    && OncePerItem(x, n, |capacity|) && WithinLoads(x, n, capacity)
    && forall p :: p in precedence ==> NeverTrails(x, |capacity|, p.0, p.1)
  }

  lemma OnceRowsMean(rows: seq<seq<real>>, rhs: seq<real>, n: nat, periods: nat, x: seq<real>)
    requires OnceRows(rows, rhs, n, periods) && |x| == n * periods
    ensures Satisfies(rows, rhs, x) <==> OncePerItem(x, n, periods)
  {
    forall b | 0 <= b < n ensures Dot(rows[b], x) == Cumulative(x, periods, b, periods) {
      OnceRowMeaning(rows[b], x, n, periods, b);
    }
  }

  lemma CapacityRowsMean(rows: seq<seq<real>>, rhs: seq<real>, n: nat, capacity: seq<real>, x: seq<real>)
    requires CapacityRows(rows, rhs, n, capacity) && |x| == n * |capacity|
    ensures Satisfies(rows, rhs, x) <==> WithinLoads(x, n, capacity)
  {
    forall t | 0 <= t < |rows| ensures Dot(rows[t], x) == Load(x, n, |capacity|, t) {
      CapacityRowMeaning(rows[t], x, n, |capacity|, t);
    }
  }

  lemma PairRowsMean(rows: seq<seq<real>>, rhs: seq<real>, n: nat, periods: nat, b: int, pred: int, x: seq<real>)
    requires PairRows(rows, rhs, n, periods, b, pred) && |x| == n * periods && 0 <= b < n && 0 <= pred < n
    ensures Satisfies(rows, rhs, x) <==> NeverTrails(x, periods, b, pred)
  {
    forall t | 0 <= t < |rows|
      ensures Dot(rows[t], x) == Cumulative(x, periods, b, t + 1) - Cumulative(x, periods, pred, t + 1)
    {
      PrecedenceRowMeaning(rows[t], x, n, periods, b, pred, t);
    }
    if Satisfies(rows, rhs, x) {
      forall t | 1 <= t <= periods ensures Cumulative(x, periods, b, t) <= Cumulative(x, periods, pred, t) {
        assert Dot(rows[t - 1], x) <= rhs[t - 1];
      }
    }
  }

  lemma {:induction false} PrecedenceRowsMean(rows: seq<seq<real>>, rhs: seq<real>, n: nat, periods: nat,
                                              precedence: seq<(int, int)>, x: seq<real>)
    requires PrecedenceRows(rows, rhs, n, periods, precedence) && |x| == n * periods
    requires forall p :: p in precedence ==> 0 <= p.0 < n && 0 <= p.1 < n
    ensures Satisfies(rows, rhs, x) <==> forall p :: p in precedence ==> NeverTrails(x, periods, p.0, p.1)
    decreases |precedence|
  {
    if precedence != [] {
      var p, k, rest := precedence[|precedence| - 1], |rows| - periods, precedence[..|precedence| - 1];
      assert precedence == rest + [p];
      SatisfiesSplit(rows, rhs, x, k);
      PrecedenceRowsMean(rows[..k], rhs[..k], n, periods, rest, x);
      PairRowsMean(rows[k..], rhs[k..], n, periods, p.0, p.1, x);
      assert forall q :: q in precedence <==> q in rest || q == p;
    }
  }

  lemma RowsMeanWindow(rows: seq<seq<real>>, rhs: seq<real>, n: nat, precedence: seq<(int, int)>, capacity: seq<real>,
                       x: seq<real>)
    requires IsWindowProgram(rows, rhs, n, precedence, capacity) && |x| == n * |capacity|
    requires forall p :: p in precedence ==> 0 <= p.0 < n && 0 <= p.1 < n
    ensures Satisfies(rows, rhs, x) <==> MeetsWindow(x, n, precedence, capacity)
  {
    var periods := |capacity|;
    SatisfiesSplit(rows, rhs, x, n);
    SatisfiesSplit(rows[n..], rhs[n..], x, periods);
    OnceRowsMean(rows[..n], rhs[..n], n, periods, x);
    CapacityRowsMean(rows[n..][..periods], rhs[n..][..periods], n, capacity, x);
    PrecedenceRowsMean(rows[n..][periods..], rhs[n..][periods..], n, periods, precedence, x);
  }

  // ---------------------------------------------------------------- the encoding is exact

  lemma PrecedenceOfEncoding(x: seq<real>, s: Schedule, n: nat, periods: nat, b: int, pred: int)
    requires IsEncoding(x, s, periods) && InPeriods(s, n, periods) && 0 <= b < n && 0 <= pred < n
    ensures NeverTrails(x, periods, b, pred) <==> (s[b] != -1 ==> s[pred] != -1 && s[pred] <= s[b])
  {
    forall t: nat, i | t <= periods && 0 <= i < n
      ensures Cumulative(x, periods, i, t) == if 0 <= s[i] < t then 1.0 else 0.0
    {
      CumulativeOfEncoding(x, s, periods, i, t);
    }
    if NeverTrails(x, periods, b, pred) && s[b] != -1 {
      assert Cumulative(x, periods, b, s[b] + 1) <= Cumulative(x, periods, pred, s[b] + 1);
    }
  }

  lemma EncodedScheduleMeets(x: seq<real>, s: Schedule, n: nat, precedence: seq<(int, int)>, capacity: seq<real>)
    requires IsEncoding(x, s, |capacity|) && InPeriods(s, n, |capacity|)
    requires forall p :: p in precedence ==> 0 <= p.0 < n && 0 <= p.1 < n
    ensures MeetsWindow(x, n, precedence, capacity) <==> Feasible(s, n, precedence, capacity)
  {
    var periods := |capacity|;
    forall b | 0 <= b < n ensures Cumulative(x, periods, b, periods) <= 1.0 {
      CumulativeOfEncoding(x, s, periods, b, periods);
    }
    forall t | 0 <= t < periods
      ensures Load(x, n, periods, t) <= capacity[t] <==> Occupancy(s, t) <= capacity[t].Floor
    {
      OccupancyOfEncoding(x, s, periods, t, n);
      assert s[..n] == s;
    }
    forall p | p in precedence
      ensures NeverTrails(x, periods, p.0, p.1) <==> (s[p.0] != -1 ==> s[p.1] != -1 && s[p.1] <= s[p.0])
    {
      PrecedenceOfEncoding(x, s, n, periods, p.0, p.1);
    }
  }

  /** The encoding is exact: a 0/1 vector satisfies every row of the window exactly when it is the encoding of
      the schedule it decodes to and that schedule is feasible. */
  lemma EncodingIsExact(rows: seq<seq<real>>, rhs: seq<real>, n: nat, precedence: seq<(int, int)>, capacity: seq<real>,
                        x: seq<real>)
    requires IsWindowProgram(rows, rhs, n, precedence, capacity) && |x| == n * |capacity| && Binary(x)
    requires forall p :: p in precedence ==> 0 <= p.0 < n && 0 <= p.1 < n
    ensures Satisfies(rows, rhs, x) <==>
      var s := Decode(x, n, |capacity|);
      IsEncoding(x, s, |capacity|) && Feasible(s, n, precedence, capacity)
  {
    var s := Decode(x, n, |capacity|);
    RowsMeanWindow(rows, rhs, n, precedence, capacity, x);
    if Satisfies(rows, rhs, x) {
      forall b, t | 0 <= b < n && 0 <= t < |capacity|
        ensures Cell(x, |capacity|, b, t) == if s[b] == t then 1.0 else 0.0
      {
        OnceMeansEncoded(x, n, |capacity|, b);
      }
    }
    if IsEncoding(x, s, |capacity|) { EncodedScheduleMeets(x, s, n, precedence, capacity); }
  }

  // ---------------------------------------------------------------- the objective

  function ProfitCell(value: seq<real>, rate: real, offset: nat): (int, int) -> real
    requires rate > -1.0
  {
    (b, t) => if 0 <= b < |value| && t >= 0 then value[b] * Discount(rate, offset + t) else 0.0
  }

  /** The linear objective of an encoding is the discounted value of its schedule. */
  lemma ObjectiveIsNpv(c: seq<real>, x: seq<real>, s: Schedule, value: seq<real>, periods: nat, rate: real, offset: nat)
    requires rate > -1.0 && |s| == |value| && InPeriods(s, |s|, periods) && IsEncoding(x, s, periods)
    requires IsRow(c, |value|, periods, ProfitCell(value, rate, offset))
    ensures Dot(c, x) == Npv(value, rate, offset, s)
  {
    var n, profit := |value|, ProfitCell(value, rate, offset);
    RowDot(c, x, n, periods, profit);
    var g := Times2(profit, CellOf(x, periods));
    forall b | 0 <= b < n ensures RowSum(periods, g, b) == Earned(value, rate, offset, s, b) {
      ItemEarns(x, s, value, periods, rate, offset, b);
    }
    SumExt(n, b => RowSum(periods, g, b), b => Earned(value, rate, offset, s, b));
  }

  lemma EncodedTerm(x: seq<real>, s: Schedule, periods: nat, f: (int, int) -> real, b: int, t: int)
    requires IsEncoding(x, s, periods) && 0 <= b < |s| && 0 <= t < periods
    ensures Times2(f, CellOf(x, periods))(b, t) == if s[b] == t then f(b, t) else 0.0
  {
    assert CellOf(x, periods)(b, t) == if s[b] == t then 1.0 else 0.0;
  }

  /** Of an item's terms in an encoding, only the one at its period remains. */
  lemma ItemTerm(x: seq<real>, s: Schedule, periods: nat, f: (int, int) -> real, b: int)
    requires IsEncoding(x, s, periods) && InPeriods(s, |s|, periods) && 0 <= b < |s|
    ensures RowSum(periods, Times2(f, CellOf(x, periods)), b) == if s[b] == -1 then 0.0 else f(b, s[b])
  {
    var g := Times2(f, CellOf(x, periods));
    var zero := (i: int) => 0.0;
    forall t | 0 <= t < periods ensures g(b, t) == if s[b] == t then f(b, t) else 0.0 {
      EncodedTerm(x, s, periods, f, b, t);
    }
    SumZero(periods, zero);
    if s[b] == -1 {
      SumExt(periods, zero, t => g(b, t));
    } else {
      SumUpdate(periods, s[b], zero, t => g(b, t));
    }
  }

  /** The terms of one item of an encoding add up to what the item earns. */
  lemma ItemEarns(x: seq<real>, s: Schedule, value: seq<real>, periods: nat, rate: real, offset: nat, b: int)
    requires rate > -1.0 && |s| == |value| && InPeriods(s, |s|, periods) && IsEncoding(x, s, periods) && 0 <= b < |s|
    ensures RowSum(periods, Times2(ProfitCell(value, rate, offset), CellOf(x, periods)), b) ==
      Earned(value, rate, offset, s, b)
  {
    ItemTerm(x, s, periods, ProfitCell(value, rate, offset), b);
  }

  // ---------------------------------------------------------------- building the rows in place

  /** A row with one cell overwritten. */
  function SetCell(row: seq<real>, n: nat, periods: nat, b: int, t: int, v: real): (r: seq<real>)
    requires |row| == n * periods && 0 <= b < n && 0 <= t < periods
    ensures |r| == |row|
    ensures forall i, tau :: 0 <= i < n && 0 <= tau < periods ==>
              Cell(r, periods, i, tau) == if i == b && tau == t then v else Cell(row, periods, i, tau)
  {
    CellIndex(n, periods, b, t);
    var at := b * periods + t;
    var r := row[at := v];
    assert forall i, tau :: 0 <= i < n && 0 <= tau < periods ==>
        Cell(r, periods, i, tau) == if i == b && tau == t then v else Cell(row, periods, i, tau) by {
      forall i, tau | 0 <= i < n && 0 <= tau < periods
        ensures Cell(r, periods, i, tau) == if i == b && tau == t then v else Cell(row, periods, i, tau)
      {
        CellIndex(n, periods, i, tau);
        if i * periods + tau == at { SameIndex(periods, b, t, i, tau); }
      }
    }
    r
  }

  function ZeroRow(n: nat, periods: nat): (r: seq<real>)
    ensures |r| == n * periods
    ensures forall i, tau :: 0 <= i < n && 0 <= tau < periods ==> Cell(r, periods, i, tau) == 0.0
  {
    assert n * periods >= 0;
    seq(n * periods, i => 0.0)
  }

  method FillOnceRow(n: nat, periods: nat, b: nat) returns (row: seq<real>)
    requires b < n
    ensures IsRow(row, n, periods, OnceCell(b))
  {
    row := ZeroRow(n, periods);
    for t := 0 to periods
      invariant |row| == n * periods
      invariant forall i, tau :: 0 <= i < n && 0 <= tau < periods ==>
                  Cell(row, periods, i, tau) == if i == b && tau < t then 1.0 else 0.0
    {
      row := SetCell(row, n, periods, b, t, 1.0);
    }
  }

  method FillCapacityRow(n: nat, periods: nat, t: nat) returns (row: seq<real>)
    requires t < periods
    ensures IsRow(row, n, periods, CapacityCell(t))
  {
    row := ZeroRow(n, periods);
    for b := 0 to n
      invariant |row| == n * periods
      invariant forall i, tau :: 0 <= i < n && 0 <= tau < periods ==>
                  Cell(row, periods, i, tau) == if i < b && tau == t then 1.0 else 0.0
    {
      row := SetCell(row, n, periods, b, t, 1.0);
    }
  }

  method FillPrecedenceRow(n: nat, periods: nat, b: nat, pred: nat, t: nat) returns (row: seq<real>)
    requires b < n && pred < n && t < periods
    ensures IsRow(row, n, periods, PrecedenceCell(b, pred, t))
  {
    row := ZeroRow(n, periods);
    for tau := 0 to t + 1
      invariant |row| == n * periods
      invariant forall i, k :: 0 <= i < n && 0 <= k < periods ==>
                  Cell(row, periods, i, k) == if k < tau then PrecedenceCell(b, pred, t)(i, k) else 0.0
    {
      row := SetCell(row, n, periods, b, tau, Cell(row, periods, b, tau) + 1.0);
      row := SetCell(row, n, periods, pred, tau, Cell(row, periods, pred, tau) - 1.0);
    }
  }

  method FillObjective(value: seq<real>, periods: nat, rate: real, offset: nat) returns (c: seq<real>)
    requires rate > -1.0
    ensures IsRow(c, |value|, periods, ProfitCell(value, rate, offset))
  {
    var n := |value|;
    c := ZeroRow(n, periods);
    for b := 0 to n
      invariant |c| == n * periods
      invariant forall i, k :: 0 <= i < n && 0 <= k < periods ==>
                  Cell(c, periods, i, k) == if i < b then ProfitCell(value, rate, offset)(i, k) else 0.0
    {
      for t := 0 to periods
        invariant |c| == n * periods
        invariant forall i, k :: 0 <= i < n && 0 <= k < periods ==>
                    Cell(c, periods, i, k) ==
                      if i < b || (i == b && k < t) then ProfitCell(value, rate, offset)(i, k) else 0.0
      {
        c := SetCell(c, n, periods, b, t, value[b] * Discount(rate, offset + t));
      }
    }
  }

  method BuildPairRows(n: nat, periods: nat, b: nat, pred: nat) returns (rows: seq<seq<real>>, rhs: seq<real>)
    requires b < n && pred < n
    ensures PairRows(rows, rhs, n, periods, b, pred)
  {
    rows, rhs := [], [];
    for t := 0 to periods
      invariant |rows| == |rhs| == t
      invariant forall k :: 0 <= k < |rows| ==> IsRow(rows[k], n, periods, PrecedenceCell(b, pred, k)) && rhs[k] == 0.0
    {
      var row := FillPrecedenceRow(n, periods, b, pred, t);
      rows, rhs := rows + [row], rhs + [0.0];
    }
  }

  /** The cumulative precedence rows; refused when a pair names an item outside the window. */
  method BuildPrecedenceRows(n: nat, periods: nat, precedence: seq<(int, int)>)
    returns (ok: bool, rows: seq<seq<real>>, rhs: seq<real>)
    ensures ok <==> forall p :: p in precedence ==> 0 <= p.0 < n && 0 <= p.1 < n
    ensures ok ==> PrecedenceRows(rows, rhs, n, periods, precedence)
  {
    ok, rows, rhs := true, [], [];
    for k := 0 to |precedence|
      invariant ok && forall p :: p in precedence[..k] ==> 0 <= p.0 < n && 0 <= p.1 < n
      invariant PrecedenceRows(rows, rhs, n, periods, precedence[..k]) && |rows| == |rhs|
    {
      var (b, pred) := precedence[k];
      ghost var done := precedence[..k + 1];
      assert done == precedence[..k] + [precedence[k]] && done[..k] == precedence[..k];
      if !(0 <= b < n && 0 <= pred < n) {
        assert precedence[k] in precedence;
        ok := false;
        return;
      }
      var more, zeros := BuildPairRows(n, periods, b, pred);
      ghost var m := |rows|;
      rows, rhs := rows + more, rhs + zeros;
      assert rows[m..] == more && rhs[m..] == zeros;
      assert rows[..m] + more == rows && rhs[..m] + zeros == rhs;
      assert PrecedenceRows(rows[..m], rhs[..m], n, periods, done[..k]);
    }
    assert precedence[..|precedence|] == precedence;
  }

  method BuildWindowProgram(n: nat, precedence: seq<(int, int)>, capacity: seq<real>)
    returns (ok: bool, rows: seq<seq<real>>, rhs: seq<real>)
    ensures ok <==> forall p :: p in precedence ==> 0 <= p.0 < n && 0 <= p.1 < n
    ensures ok ==> IsWindowProgram(rows, rhs, n, precedence, capacity)
  {
    var periods := |capacity|;
    var once, ones := [], [];
    for b := 0 to n
      invariant |once| == |ones| == b
      invariant forall i :: 0 <= i < b ==> IsRow(once[i], n, periods, OnceCell(i)) && ones[i] == 1.0
    {
      var row := FillOnceRow(n, periods, b);
      once, ones := once + [row], ones + [1.0];
    }
    var loads, limits := [], [];
    for t := 0 to periods
      invariant |loads| == |limits| == t
      invariant forall i :: 0 <= i < t ==> IsRow(loads[i], n, periods, CapacityCell(i)) && limits[i] == capacity[i]
    {
      var row := FillCapacityRow(n, periods, t);
      loads, limits := loads + [row], limits + [capacity[t]];
    }
    var pairs, zeros;
    ok, pairs, zeros := BuildPrecedenceRows(n, periods, precedence);
    rows, rhs := once + (loads + pairs), ones + (limits + zeros);
    assert rows[..n] == once && rhs[..n] == ones && rows[n..] == loads + pairs && rhs[n..] == limits + zeros;
    assert (loads + pairs)[..periods] == loads && (loads + pairs)[periods..] == pairs;
    assert (limits + zeros)[..periods] == limits && (limits + zeros)[periods..] == zeros;
    assert ok ==> |rows| == |rhs|;
  }
}
