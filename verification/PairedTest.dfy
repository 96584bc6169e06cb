/**
 * The exact two-sided paired test on discordant counts, and its validity as a test
 * of the hypothesis that each discordant pair falls either way with probability one half.
 */
module PairedTest {
  import opened Numbers

  /** The number of ways to choose `k` of `n`. */
  function Choose(n: nat, k: nat): nat {
    if k == 0 then 1 else if n == 0 then 0 else Choose(n - 1, k - 1) + Choose(n - 1, k)
  }

  /** The outcomes with at least `k` successes in `n`, counted with multiplicity. */
  function Tail(n: nat, k: nat): nat
    decreases n + 1 - k
  {
    if k > n then 0 else Choose(n, k) + Tail(n, k + 1)
  }

  function TwiceTail(n: nat, k: nat): real {
    2.0 * (Tail(n, k) as real / Pow2(n) as real)
  }

  /** The exact two-sided p-value from the two discordant counts. */
  function PValue(first: nat, second: nat): real {
    var n := first + second;
    if n == 0 then 1.0
    else
      var p := TwiceTail(n, LargerNat(first, second));
      if p < 1.0 then p else 1.0
  }

  /** The weight, out of 2^n, of the outcomes below `m` whose p-value is at most `level`. */
  function Rejected(n: nat, level: real, m: nat): nat
    requires m <= n + 1
  {
    if m == 0 then 0
    else
      Rejected(n, level, m - 1) + (if PValue(m - 1, n - (m - 1)) <= level then Choose(n, m - 1) else 0)
  }

  /** The probability, under Binomial(n, 1/2), of a p-value at most `level`. */
  function RejectionProbability(n: nat, level: real): real {
    Rejected(n, level, n + 1) as real / Pow2(n) as real
  }

  // ---------------------------------------------------------------- binomial coefficients

  lemma {:induction false} ChooseAbove(n: nat, k: nat)
    requires k > n
    ensures Choose(n, k) == 0
  {
    if n > 0 {
      ChooseAbove(n - 1, k - 1);
      ChooseAbove(n - 1, k);
    }
  }

  lemma {:induction false} ChoosePositive(n: nat, k: nat)
    requires k <= n
    ensures Choose(n, k) >= 1
  {
    if k > 0 { ChoosePositive(n - 1, k - 1); }
  }

  lemma {:induction false} ChooseSymmetric(n: nat, k: nat)
    requires k <= n
    ensures Choose(n, k) == Choose(n, n - k)
  {
    if k == 0 {
      ChooseAll(n);
    } else if k == n {
      ChooseAll(n);
    } else {
      ChooseSymmetric(n - 1, k - 1);
      ChooseSymmetric(n - 1, k);
    }
  }

  lemma {:induction false} ChooseAll(n: nat)
    ensures Choose(n, n) == 1
  {
    if n > 0 {
      ChooseAll(n - 1);
      ChooseAbove(n - 1, n);
    }
  }

  /** The outcomes with fewer than `k` successes. */
  function Head(n: nat, k: nat): nat {
    if k == 0 then 0 else Head(n, k - 1) + Choose(n, k - 1)
  }

  lemma {:induction false} HeadPascal(n: nat, k: nat)
    requires n > 0
    ensures Head(n, k) == Head(n - 1, k) + (if k == 0 then 0 else Head(n - 1, k - 1))
  {
    if k > 0 { HeadPascal(n, k - 1); }
  }

  lemma {:induction false} HeadOfAll(n: nat, k: nat)
    requires k >= n + 1
    ensures Head(n, k) == Pow2(n)
    decreases n, k
  {
    if k > n + 1 {
      HeadOfAll(n, k - 1);
      ChooseAbove(n, k - 1);
    } else if n > 0 {
      HeadPascal(n, k);
      HeadOfAll(n - 1, k);
      HeadOfAll(n - 1, k - 1);
    } else {
      assert Head(0, 1) == Head(0, 0) + Choose(0, 0);
    }
  }

  /** Head and tail make up all 2^n outcomes. */
  lemma {:induction false} HeadPlusTail(n: nat, k: nat)
    requires k <= n + 1
    ensures Head(n, k) + Tail(n, k) == Pow2(n)
    decreases n + 1 - k
  {
    if k == n + 1 { HeadOfAll(n, k); } else { HeadPlusTail(n, k + 1); }
  }

  /** By symmetry, fewer than `k` successes is as likely as more than `n - k`. */
  lemma {:induction false} HeadIsTail(n: nat, k: nat)
    requires k <= n + 1
    ensures Head(n, k) == Tail(n, n + 1 - k)
  {
    if k > 0 {
      HeadIsTail(n, k - 1);
      ChooseSymmetric(n, k - 1);
    }
  }

  lemma {:induction false} TailFalls(n: nat, k: nat, l: nat)
    requires k <= l
    ensures Tail(n, l) <= Tail(n, k)
    ensures k < l && k <= n ==> Tail(n, l) < Tail(n, k)
    decreases l - k
  {
    if k < l {
      TailFalls(n, k + 1, l);
      if k <= n { ChoosePositive(n, k); }
    }
  }

  /** From the larger count on, the doubled tail exceeds all outcomes exactly when the counts are equal. */
  lemma DoubledTail(n: nat, k: nat)
    requires n <= 2 * k <= 2 * n
    ensures 2 * Tail(n, k) > Pow2(n) <==> 2 * k == n
  {
    HeadPlusTail(n, k);
    HeadIsTail(n, k);
    if 2 * k == n {
      ChoosePositive(n, k);
    } else {
      TailFalls(n, n + 1 - k, k);
    }
  }

  // ---------------------------------------------------------------- ratios

  lemma RatioOrder(a: nat, b: nat, d: nat)
    requires d > 0
    ensures a < b ==> 2.0 * (a as real / d as real) < 2.0 * (b as real / d as real)
    ensures 2.0 * (a as real / d as real) > 1.0 <==> 2 * a > d
    ensures 2.0 * (a as real / d as real) < 1.0 <==> 2 * a < d
  {
    var x, y, e := a as real, b as real, d as real;
    assert (x / e) * e == x && (y / e) * e == y;
    if a < b && x / e >= y / e { assert (x / e) * e >= (y / e) * e; }
    ScaleCompare(x / e, 0.5, e);
  }

  lemma ScaleCompare(x: real, y: real, e: real)
    requires e > 0.0
    ensures x < y <==> x * e < y * e
    ensures x > y <==> x * e > y * e
  {
    if x < y { assert (y - x) * e > 0.0; }
    if x > y { assert (x - y) * e > 0.0; }
  }

  // ---------------------------------------------------------------- the p-value

  /** The p-value does not depend on which side is called first. */
  lemma PValueSymmetric(first: nat, second: nat)
    ensures PValue(first, second) == PValue(second, first)
  {
  }

  /** The clamp at one is needed exactly when the two counts are equal. */
  lemma ClampOnlyWhenEqual(first: nat, second: nat)
    ensures TwiceTail(first + second, LargerNat(first, second)) > 1.0 <==> first == second
  {
    var n, k := first + second, LargerNat(first, second);
    DoubledTail(n, k);
    RatioOrder(Tail(n, k), 0, Pow2(n));
  }

  /** Off the tie the p-value is the doubled tail itself. */
  lemma PValueIsDoubledTail(first: nat, second: nat)
    requires first + second > 0
    ensures first != second ==> PValue(first, second) == TwiceTail(first + second, LargerNat(first, second))
    ensures first == second ==> PValue(first, second) == 1.0
  {
    ClampOnlyWhenEqual(first, second);
  }

  /** For a fixed number of discordant pairs, a greater imbalance has a strictly smaller p-value. */
  lemma PValueFallsWithImbalance(a: nat, b: nat, c: nat, d: nat)
    requires a + b == c + d && LargerNat(a, b) < LargerNat(c, d)
    ensures PValue(c, d) < PValue(a, b)
  {
    var n := a + b;
    TailFalls(n, LargerNat(a, b), LargerNat(c, d));
    RatioOrder(Tail(n, LargerNat(c, d)), Tail(n, LargerNat(a, b)), Pow2(n));
    PValueIsDoubledTail(a, b);
    PValueIsDoubledTail(c, d);
    StrictlyBelowOne(n, LargerNat(a, b), LargerNat(c, d));
  }

  lemma StrictlyBelowOne(n: nat, k: nat, l: nat)
    requires n <= 2 * k && k < l <= n
    ensures TwiceTail(n, l) < 1.0
  {
    TailFalls(n, n - l + 1, l);
    TailFalls(n, n - l + 1, k);
    HeadPlusTail(n, l);
    HeadIsTail(n, l);
    TailFalls(n, k, l);
    RatioOrder(Tail(n, l), 0, Pow2(n));
  }

  // ---------------------------------------------------------------- validity

  /** The least count, from `k` on, whose doubled tail is at most `level`. */
  function Threshold(n: nat, level: real, k: nat): (t: nat)
    requires k <= n + 1 && level >= 0.0
    ensures k <= t <= n + 1 && TwiceTail(n, t) <= level
    ensures forall i :: k <= i < t ==> TwiceTail(n, i) > level
    decreases n + 1 - k
  {
    if k == n + 1 || TwiceTail(n, k) <= level then k else Threshold(n, level, k + 1)
  }

  lemma BelowHalfDoublesToAll(n: nat, k: nat)
    requires 2 * k <= n
    ensures TwiceTail(n, k) >= 1.0
  {
    HeadPlusTail(n, k);
    HeadIsTail(n, k);
    TailFalls(n, k, n + 1 - k);
    RatioOrder(Tail(n, k), 0, Pow2(n));
  }

  /** Below level one, an outcome is rejected exactly when its larger count reaches the threshold. */
  lemma RejectedAtThreshold(n: nat, level: real, j: nat)
    requires 0.0 <= level < 1.0 && j <= n
    ensures PValue(j, n - j) <= level <==> LargerNat(j, n - j) >= Threshold(n, level, 0)
  {
    var t, k := Threshold(n, level, 0), LargerNat(j, n - j);
    if n > 0 && k >= t {
      TailFalls(n, t, k);
      RatioOrder(Tail(n, k), Tail(n, t), Pow2(n));
      assert TwiceTail(n, k) <= TwiceTail(n, t);
    }
  }

  /** The lower tail and the upper tail beyond the threshold `t`, among the outcomes below `m`. */
  function BothTails(n: nat, t: nat, m: nat): int {
    (if m <= n + 1 - t then Head(n, m) else if t <= n + 1 then Head(n, n + 1 - t) else 0)
    + (if m > t then Head(n, m) - Head(n, t) else 0)
  }

  lemma NextOutcome(n: nat, t: nat, m: nat)
    requires 2 * t > n && t <= n + 1 && m <= n
    ensures BothTails(n, t, m + 1) == BothTails(n, t, m) + (if m >= t || n - m >= t then Choose(n, m) else 0)
  {
    assert Head(n, m + 1) == Head(n, m) + Choose(n, m);
  }

  /** The rejected weight is the lower tail plus the upper tail beyond the threshold. */
  lemma {:induction false} RejectedWeight(n: nat, level: real, m: nat)
    requires 0.0 <= level < 1.0 && m <= n + 1 && 2 * Threshold(n, level, 0) > n
    ensures Threshold(n, level, 0) <= n + 1
    ensures Rejected(n, level, m) == BothTails(n, Threshold(n, level, 0), m)
  {
    if m > 0 {
      RejectedWeight(n, level, m - 1);
      RejectedAtThreshold(n, level, m - 1);
      NextOutcome(n, Threshold(n, level, 0), m - 1);
    }
  }

  /** The rejection probability is exactly the doubled tail at the threshold. */
  lemma RejectionIsDoubledTail(n: nat, level: real)
    requires 0.0 <= level < 1.0
    ensures RejectionProbability(n, level) == TwiceTail(n, Threshold(n, level, 0))
  {
    var t := Threshold(n, level, 0);
    if 2 * t <= n { BelowHalfDoublesToAll(n, t); }
    RejectedWeight(n, level, n + 1);
    HeadIsTail(n, n + 1 - t);
    HeadPlusTail(n, t);
    HeadOfAll(n, n + 1);
    assert Rejected(n, level, n + 1) == 2 * Tail(n, t);
    DoubleRatio(Tail(n, t), Pow2(n));
  }

  lemma DoubleRatio(x: nat, d: nat)
    requires d > 0
    ensures (2 * x) as real / d as real == 2.0 * (x as real / d as real)
  {
  }

  /** The test is valid: at every level below one, the chance of a p-value at or below it is at most the level. */
  lemma PairedTestIsValid(n: nat, level: real)
    requires 0.0 <= level < 1.0
    ensures RejectionProbability(n, level) <= level
  {
    RejectionIsDoubledTail(n, level);
  }

  /** And exact: at a level that is itself the p-value of an untied outcome, the chance equals the level. */
  lemma PairedTestIsExact(first: nat, second: nat)
    requires PValue(first, second) < 1.0
    ensures RejectionProbability(first + second, PValue(first, second)) == PValue(first, second)
  {
    var n, k, level := first + second, LargerNat(first, second), PValue(first, second);
    assert level == TwiceTail(n, k);
    PValueNonNegative(n, k);
    RejectionIsDoubledTail(n, level);
    var t := Threshold(n, level, 0);
    if t < k {
      TailFalls(n, t, k);
      RatioOrder(Tail(n, k), Tail(n, t), Pow2(n));
    }
  }

  lemma PValueNonNegative(n: nat, k: nat)
    ensures TwiceTail(n, k) >= 0.0
  {
  }
}
