/**
 * What rolling mode gives up against exact mode: a reward that lies beyond every window, and the refusal of pairs that
 * name no item.
 */
module RollingLimits {
  import opened Numbers
  import opened Outcomes
  import opened Sums
  import opened ScheduleProgram
  import opened ScheduleModes

  // ---------------------------------------------------------------- a chain with a late reward

  /** Among `n` items the first `m` form a chain; only its last item is worth something, every other item costs one. */
  function ChainValue(n: nat, m: nat, reward: real): (value: seq<real>)
    ensures |value| == n && forall b :: 0 <= b < n ==> value[b] == if b == m - 1 then reward else -1.0
  {
    seq(n, b => if b == m - 1 then reward else -1.0)
  }

  function ChainPairs(m: nat): (pairs: seq<(int, int)>)
    requires m >= 1
    ensures forall p :: p in pairs ==> 1 <= p.0 < m && p.1 == p.0 - 1
  {
    seq(m - 1, i => (i + 1, i))
  }

  /** One item a period. */
  function OneEach(periods: nat): (capacity: seq<real>)
    ensures |capacity| == periods && NonNegative(capacity)
    ensures forall t :: 0 <= t < periods ==> capacity[t] == 1.0
  {
    seq(periods, t => 1.0)
  }

  lemma {:induction false} OneCounted(s: Schedule, i: nat)
    requires i < |s|
    ensures Occupancy(s, s[i]) >= 1
  {
    if i < |s| - 1 { OneCounted(s[..|s| - 1], i); }
  }

  lemma {:induction false} TwoCounted(s: Schedule, i: nat, j: nat)
    requires i < j < |s| && s[i] == s[j]
    ensures Occupancy(s, s[i]) >= 2
  {
    if j < |s| - 1 { TwoCounted(s[..|s| - 1], i, j); } else { OneCounted(s[..|s| - 1], i); }
  }

  lemma AlonePeriod(s: Schedule, i: nat, j: nat)
    requires i < j < |s| && Occupancy(s, s[j]) <= 1
    ensures s[i] != s[j]
  {
    if s[i] == s[j] { TwoCounted(s, i, j); }
  }

  /** With one item a period, an item of the chain is scheduled strictly later than the one before it. */
  lemma ChainStep(s: Schedule, n: nat, m: nat, periods: nat, b: nat)
    requires 1 <= b < m <= n && Feasible(s, n, ChainPairs(m), OneEach(periods)) && s[b] != -1
    ensures 0 <= s[b - 1] < s[b]
  {
    var pairs := ChainPairs(m);
    assert pairs[b - 1] == (b, b - 1) && pairs[b - 1] in pairs;
    assert Occupancy(s, s[b]) <= OneEach(periods)[s[b]].Floor;
    AlonePeriod(s, b - 1, b);
  }

  /** With one item a period, an item that comes `b`-th in the chain is scheduled no earlier than period `b`. */
  lemma {:induction false} ChainTakesItsTime(s: Schedule, n: nat, m: nat, periods: nat, b: nat)
    requires 1 <= m <= n && b < m && Feasible(s, n, ChainPairs(m), OneEach(periods)) && s[b] != -1
    ensures s[b] >= b && forall a :: 0 <= a < b ==> s[a] != -1
  {
    if b > 0 {
      ChainStep(s, n, m, periods, b);
      ChainTakesItsTime(s, n, m, periods, b - 1);
    }
  }

  // ---------------------------------------------------------------- every window loses

  lemma DiscountPositive(rate: real, k: nat)
    requires rate > -1.0
    ensures Discount(rate, k) > 0.0
  {
  }

  /** Where the rewarded item is left out, each scheduled item costs something. */
  lemma EarnsNothing(n: nat, m: nat, reward: real, rate: real, offset: nat, s: Schedule, b: int)
    requires rate > -1.0 && 1 <= m <= n == |s| && s[m - 1] == -1 && 0 <= b < n
    ensures Earned(ChainValue(n, m, reward), rate, offset, s, b) <= 0.0
    ensures s[b] >= 0 ==> Earned(ChainValue(n, m, reward), rate, offset, s, b) < 0.0
  {
    if s[b] >= 0 { DiscountPositive(rate, offset + s[b]); }
  }

  lemma {:induction false} NegativeSum(n: nat, k: int, f: int -> real)
    requires 0 <= k < n && f(k) < 0.0 && forall i :: 0 <= i < n ==> f(i) <= 0.0
    ensures Sum(n, f) < 0.0
  {
    var g := (i: int) => -f(i);
    SumAtLeastTerm(n, k, g);
    SumScale(n, -1.0, f, g);
  }

  lemma WithoutRewardLoses(n: nat, m: nat, reward: real, rate: real, offset: nat, s: Schedule, b: int)
    requires rate > -1.0 && 1 <= m <= n == |s| && s[m - 1] == -1 && 0 <= b < n && s[b] >= 0
    ensures Npv(ChainValue(n, m, reward), rate, offset, s) < 0.0
  {
    var value := ChainValue(n, m, reward);
    forall i | 0 <= i < n ensures Earned(value, rate, offset, s, i) <= 0.0 {
      EarnsNothing(n, m, reward, rate, offset, s, i);
    }
    EarnsNothing(n, m, reward, rate, offset, s, b);
    NegativeSum(n, b, i => Earned(value, rate, offset, s, i));
  }

  lemma SomethingScheduled(s: Schedule, n: nat) returns (b: int)
    requires |s| == n && s != Unscheduled(n)
    ensures 0 <= b < n && s[b] != -1
  {
    b :| 0 <= b < n && s[b] != -1;
  }

  lemma WindowLoses(n: nat, m: nat, reward: real, rate: real, t: nat, w: nat, s: Schedule)
    requires rate > -1.0 && 1 <= m <= n && w < m && s != Unscheduled(n)
    requires Feasible(s, n, ChainPairs(m), OneEach(w))
    ensures Npv(ChainValue(n, m, reward), rate, t, s) < 0.0
  {
    if s[m - 1] != -1 { ChainTakesItsTime(s, n, m, w, m - 1); }
    var b := SomethingScheduled(s, n);
    WithoutRewardLoses(n, m, reward, rate, t, s, b);
  }

  lemma ChainLosesIn(n: nat, m: nat, reward: real, rate: real, periods: nat, t: nat, w: nat)
    requires rate > -1.0 && 1 <= m <= n && w < m && t + w <= periods
    ensures LosesIn(ChainValue(n, m, reward), ChainPairs(m), OneEach(periods), rate, t, w)
  {
    assert OneEach(periods)[t..t + w] == OneEach(w);
    forall s | Feasible(s, n, ChainPairs(m), OneEach(w)) && s != Unscheduled(n)
      ensures Npv(ChainValue(n, m, reward), rate, t, s) < 0.0
    {
      WindowLoses(n, m, reward, rate, t, w, s);
    }
  }

  // ---------------------------------------------------------------- what the whole horizon is worth

  /** The chain taken one item a period. */
  function ChainSchedule(n: nat, m: nat): (s: Schedule)
    ensures |s| == n && forall b :: 0 <= b < n ==> s[b] == if b < m then b else -1
  {
    seq(n, b => if b < m then b else -1)
  }

  lemma {:induction false} ChainOccupancy(n: nat, m: nat, t: nat)
    ensures Occupancy(ChainSchedule(n, m), t) == if t < n && t < m then 1 else 0
  {
    if n > 0 {
      assert ChainSchedule(n, m)[..n - 1] == ChainSchedule(n - 1, m);
      ChainOccupancy(n - 1, m, t);
    }
  }

  lemma ChainFeasible(n: nat, m: nat)
    requires 1 <= m <= n
    ensures Feasible(ChainSchedule(n, m), n, ChainPairs(m), OneEach(m))
  {
    forall t | 0 <= t < m ensures Occupancy(ChainSchedule(n, m), t) <= OneEach(m)[t].Floor {
      ChainOccupancy(n, m, t);
    }
  }

  lemma {:induction false} NoDiscount(k: nat)
    ensures Discount(0.0, k) == 1.0
  {
    if k > 0 { NoDiscount(k - 1); }
  }

  /** Without discounting an item earns its value, whenever it is scheduled. */
  lemma EarnedAtRateZero(value: seq<real>, s: Schedule, b: int)
    requires 0 <= b < |s| == |value|
    ensures Earned(value, 0.0, 0, s, b) == if s[b] >= 0 then value[b] else 0.0
  {
    if s[b] >= 0 { NoDiscount(s[b]); }
  }

  /** The chain is worth its reward less one for each item before it. */
  lemma ChainWorth(n: nat, m: nat, reward: real)
    requires 1 <= m <= n
    ensures Npv(ChainValue(n, m, reward), 0.0, 0, ChainSchedule(n, m)) == reward - (m - 1) as real
  {
    var value, s := ChainValue(n, m, reward), ChainSchedule(n, m);
    var f := b => Earned(value, 0.0, 0, s, b);
    forall b | 0 <= b < n ensures f(b) == if b < m - 1 then -1.0 else if b == m - 1 then reward else 0.0 {
      EarnedAtRateZero(value, s, b);
    }
    CostsThenReward(n, m, reward, f);
  }

  lemma CostsThenReward(n: nat, m: nat, reward: real, f: int -> real)
    requires 1 <= m <= n
    requires forall b :: 0 <= b < n ==> f(b) == if b < m - 1 then -1.0 else if b == m - 1 then reward else 0.0
    ensures Sum(n, f) == reward - (m - 1) as real
  {
    var rest := (i: int) => f(m + i);
    SumSplit(m, n - m, f, rest);
    SumZero(n - m, rest);
    SumConst(m - 1, -1.0, f);
  }

  /** No schedule of the chain beats taking all of it, or nothing. */
  lemma ChainIsBest(n: nat, m: nat, reward: real, s: Schedule)
    requires 1 <= m <= n && Feasible(s, n, ChainPairs(m), OneEach(m))
    ensures Npv(ChainValue(n, m, reward), 0.0, 0, s) <= Larger(0.0, reward - (m - 1) as real)
  {
    var value := ChainValue(n, m, reward);
    if s[m - 1] == -1 {
      if s == Unscheduled(n) {
        EmptyScheduleFeasible(n, value, ChainPairs(m), OneEach(m), 0.0, 0);
      } else {
        var b := SomethingScheduled(s, n);
        WithoutRewardLoses(n, m, reward, 0.0, 0, s, b);
      }
    } else {
      ChainTakesItsTime(s, n, m, m, m - 1);
      WholeChainWorth(n, m, reward, s);
    }
  }

  /** A schedule with the whole chain in it earns no more than the chain by itself. */
  lemma WholeChainWorth(n: nat, m: nat, reward: real, s: Schedule)
    requires 1 <= m <= n == |s| && forall b :: 0 <= b < m ==> s[b] >= 0
    ensures Npv(ChainValue(n, m, reward), 0.0, 0, s) <= reward - (m - 1) as real
  {
    var value, whole := ChainValue(n, m, reward), ChainSchedule(n, m);
    forall b | 0 <= b < n ensures Earned(value, 0.0, 0, s, b) <= Earned(value, 0.0, 0, whole, b) {
      EarnedAtRateZero(value, s, b);
      EarnedAtRateZero(value, whole, b);
    }
    SumLe(n, b => Earned(value, 0.0, 0, s, b), b => Earned(value, 0.0, 0, whole, b));
    ChainWorth(n, m, reward);
  }

  /** A best schedule of the chain is worth exactly the chain, or nothing when the reward does not pay for it. */
  lemma BestChainWorth(n: nat, m: nat, reward: real, best: Schedule)
    requires 1 <= m <= n && IsBest(best, n, ChainValue(n, m, reward), ChainPairs(m), OneEach(m), 0.0, 0)
    ensures Npv(ChainValue(n, m, reward), 0.0, 0, best) == Larger(0.0, reward - (m - 1) as real)
  {
    ChainIsBest(n, m, reward, best);
    ChainFeasible(n, m);
    ChainWorth(n, m, reward);
    EmptyScheduleFeasible(n, ChainValue(n, m, reward), ChainPairs(m), OneEach(m), 0.0, 0);
  }

  /** Rolling mode carries no bound: on a chain longer than its window it schedules nothing, while exact mode earns the
      whole chain, and the reward can be as large as one likes. */
  method FarRewardIsMissed(n: nat, m: nat, reward: real)
    returns (rolling: Result<(real, Schedule), ScheduleError>, exact: Result<(real, Schedule), ScheduleError>)
    requires RollingWindow(n) < m <= n
    ensures rolling == Ok((0.0, Unscheduled(n)))
    ensures exact.Ok? && exact.value.0 == Larger(0.0, reward - (m - 1) as real)
  {
    var value, pairs, capacity := ChainValue(n, m, reward), ChainPairs(m), OneEach(m);
    forall t: nat, w: nat | w <= RollingWindow(n) && t + w <= m ensures LosesIn(value, pairs, capacity, 0.0, t, w) {
      ChainLosesIn(n, m, reward, 0.0, m, t, w);
    }
    rolling := ScheduleActivities(value, pairs, capacity, m, 0.0, "rolling");
    exact := ScheduleActivities(value, pairs, capacity, m, 0.0, "exact");
    assert PairsInRange(n, pairs);
    BestChainWorth(n, m, reward, exact.value.1);
  }

  /** The documented instance: fifty items, ten periods, and a chain of ten that ends in a reward of 100; the forty
      other items cost one each. */
  method DocumentedChain()
    returns (rolling: Result<(real, Schedule), ScheduleError>, exact: Result<(real, Schedule), ScheduleError>)
    ensures rolling == Ok((0.0, Unscheduled(50)))
    ensures exact.Ok? && exact.value.0 == 91.0
  {
    assert RollingWindow(50) < 10;
    rolling, exact := FarRewardIsMissed(50, 10, 100.0);
  }

  // ---------------------------------------------------------------- a pair that names no item

  /** One item worth one, and a pair whose dependent is no item: exact mode refuses it, rolling mode ignores it and
      schedules the item. */
  method ModesDisagree()
    returns (rolling: Result<(real, Schedule), ScheduleError>, exact: Result<(real, Schedule), ScheduleError>)
    ensures exact == Err(BadPair)
    ensures rolling == Ok((1.0, [0]))
  {
    var value, pairs, capacity := [1.0], [(5, 0)], [1.0];
    exact := ScheduleActivities(value, pairs, capacity, 1, 0.0, "exact");
    rolling := ScheduleActivities(value, pairs, capacity, 1, 0.0, "rolling");
    assert (5, 0) in pairs;
    OneItem(pairs, rolling.value.1);
  }

  lemma OneItem(pairs: seq<(int, int)>, best: Schedule)
    requires pairs == [(5, 0)] && IsBest(best, 1, [1.0], pairs, [1.0], 0.0, 0)
    ensures best == [0] && Npv([1.0], 0.0, 0, best) == 1.0
  {
    assert [0][..0] == [];
    assert Occupancy([0], 0) == 1;
    assert Feasible([0], 1, pairs, [1.0]);
    OneItemWorth([0]);
    OneItemWorth(best);
  }

  lemma OneItemWorth(s: Schedule)
    requires |s| == 1
    ensures Npv([1.0], 0.0, 0, s) == if s[0] >= 0 then 1.0 else 0.0
  {
    EarnedAtRateZero([1.0], s, 0);
    var f := b => Earned([1.0], 0.0, 0, s, b);
    assert Sum(1, f) == Sum(0, f) + f(0);
  }
}
