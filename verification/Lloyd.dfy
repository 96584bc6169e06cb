/**
 * Lloyd's iteration: assign every point to its nearest centre, then move each non-empty cluster's
 * centre, in place, to the mean of its members.
 */
module Lloyd {
  import opened Sums

  type Point = seq<real>

  function Coordinate(x: Point, i: int): real {
    if 0 <= i < |x| then x[i] else 0.0
  }

  function Square(x: real): (r: real)
    ensures r >= 0.0
  {
    x * x
  }

  /** Squared Euclidean distance in `d` coordinates. */
  function Distance(d: nat, x: Point, c: Point): real {
    Sum(d, i => Square(Coordinate(x, i) - Coordinate(c, i)))
  }

  /** The first centre at least distance, among centres `0 .. k`. */
  function Nearest(d: nat, x: Point, centers: seq<Point>, k: nat): (j: nat)
    requires 1 <= k <= |centers|
    ensures j < k && forall i :: 0 <= i < k ==> Distance(d, x, centers[j]) <= Distance(d, x, centers[i])
    ensures forall i :: 0 <= i < j ==> Distance(d, x, centers[j]) < Distance(d, x, centers[i])
  {
    if k == 1 then 0 else
    var j := Nearest(d, x, centers, k - 1);
    if Distance(d, x, centers[k - 1]) < Distance(d, x, centers[j]) then k - 1 else j
  }

  function AssignmentOf(d: nat, points: seq<Point>, centers: seq<Point>): (a: seq<nat>)
    requires |centers| >= 1
    ensures |a| == |points| && forall i :: 0 <= i < |a| ==>
      a[i] == Nearest(d, points[i], centers, |centers|) < |centers|
  {
    seq(|points|, i requires 0 <= i < |points| => Nearest(d, points[i], centers, |centers|))
  }

  /** The potential Lloyd's iteration descends: total squared distance to the nearest centre. */
  function Potential(d: nat, points: seq<Point>, centers: seq<Point>): real
    requires |centers| >= 1
  {
    Sum(|points|, i =>
      if 0 <= i < |points| then Distance(d, points[i], centers[Nearest(d, points[i], centers, |centers|)]) else 0.0)
  }

  // ---------------------------------------------------------------- one pass

  /** How many of the first `n` points belong to cluster `j`. */
  function MemberCount(a: seq<nat>, j: nat, n: nat): nat
    requires n <= |a|
  {
    if n == 0 then 0 else MemberCount(a, j, n - 1) + (if a[n - 1] == j then 1 else 0)
  }

  function MemberTerm(points: seq<Point>, a: seq<nat>, j: nat, i: int): int -> real {
    k => if 0 <= k < |a| && k < |points| && a[k] == j then Coordinate(points[k], i) else 0.0
  }

  /** The mean of the members of cluster `j`. */
  function MemberMean(d: nat, points: seq<Point>, a: seq<nat>, j: nat): (m: Point)
    requires MemberCount(a, j, |a|) > 0
    ensures |m| == d
    ensures forall i :: 0 <= i < d ==> m[i] == Sum(|a|, MemberTerm(points, a, j, i)) / MemberCount(a, j, |a|) as real
  {
    seq(d, i => Sum(|a|, MemberTerm(points, a, j, i)) / MemberCount(a, j, |a|) as real)
  }

  /** Where a pass puts centre `j`: the mean of its members, or where it was when it has none. */
  function MovedCenter(d: nat, points: seq<Point>, centers: seq<Point>, j: nat): Point
    requires j < |centers|
  {
    var a := AssignmentOf(d, points, centers);
    if MemberCount(a, j, |a|) > 0 then MemberMean(d, points, a, j) else centers[j]
  }

  function Pass(d: nat, points: seq<Point>, centers: seq<Point>): (r: seq<Point>)
    requires |centers| >= 1
    ensures |r| == |centers| && forall j :: 0 <= j < |r| ==> r[j] == MovedCenter(d, points, centers, j)
  {
    seq(|centers|, j requires 0 <= j < |centers| => MovedCenter(d, points, centers, j))
  }

  function Passes(d: nat, points: seq<Point>, centers: seq<Point>, n: nat): (r: seq<Point>)
    requires |centers| >= 1
    ensures |r| == |centers|
  {
    if n == 0 then centers else Pass(d, points, Passes(d, points, centers, n - 1))
  }

  // ---------------------------------------------------------------- what a pass is

  /** The points whose nearest centre is centre `j`. */
  function Members(d: nat, points: seq<Point>, centers: seq<Point>, j: nat): (m: set<int>)
    requires |centers| >= 1
    ensures forall k :: k in m <==> 0 <= k < |points| && IsNearest(d, points[k], centers, j)
  {
    assert forall k :: 0 <= k < |points| ==>
      (Nearest(d, points[k], centers, |centers|) == j <==> IsNearest(d, points[k], centers, j)) by {
      forall k | 0 <= k < |points|
        ensures Nearest(d, points[k], centers, |centers|) == j <==> IsNearest(d, points[k], centers, j)
      {
        NearestIff(d, points[k], centers, j);
      }
    }
    set k | 0 <= k < |points| && Nearest(d, points[k], centers, |centers|) == j
  }

  /** Centre `j` is at least distance from the point, and the first that is. */
  predicate IsNearest(d: nat, x: Point, centers: seq<Point>, j: nat) {
    && j < |centers|
    && (forall i :: 0 <= i < |centers| ==> Distance(d, x, centers[j]) <= Distance(d, x, centers[i]))
    && (forall i :: 0 <= i < j ==> Distance(d, x, centers[j]) < Distance(d, x, centers[i]))
  }

  lemma NearestIff(d: nat, x: Point, centers: seq<Point>, j: nat)
    requires |centers| >= 1
    ensures Nearest(d, x, centers, |centers|) == j <==> IsNearest(d, x, centers, j)
  {
  }

  /** From `before` to `after` every centre goes to the mean of its members, and one without members stays. */
  ghost predicate IsPass(d: nat, points: seq<Point>, before: seq<Point>, after: seq<Point>)
    requires |before| >= 1
  {
    |after| == |before| && forall j :: 0 <= j < |after| ==> IsMoved(d, points, before, after[j], j)
  }

  ghost predicate IsMoved(d: nat, points: seq<Point>, before: seq<Point>, c: Point, j: nat)
    requires |before| >= 1 && j < |before|
  {
    var members := Members(d, points, before, j);
    if |members| == 0 then c == before[j] else IsMeanOf(d, points, members, c)
  }

  ghost predicate IsMeanOf(d: nat, points: seq<Point>, members: set<int>, c: Point) {
    |c| == d && forall i :: 0 <= i < d ==> |members| as real * c[i] == SumOver(points, members, i)
  }

  /** The sum of one coordinate over some of the points. */
  function SumOver(points: seq<Point>, members: set<int>, i: int): real {
    Sum(|points|, k => if 0 <= k < |points| && k in members then Coordinate(points[k], i) else 0.0)
  }

  lemma {:induction false} CountIsCardinality(a: seq<nat>, j: nat, n: nat)
    requires n <= |a|
    ensures MemberCount(a, j, n) == |set k | 0 <= k < n && a[k] == j|
  {
    var members := set k | 0 <= k < n && a[k] == j;
    if n == 0 {
      assert members == {};
    } else {
      CountIsCardinality(a, j, n - 1);
      var earlier := set k | 0 <= k < n - 1 && a[k] == j;
      if a[n - 1] == j { assert members == earlier + {n - 1}; } else { assert members == earlier; }
    }
  }

  /** A pass does exactly that. */
  lemma PassIsPass(d: nat, points: seq<Point>, centers: seq<Point>)
    requires |centers| >= 1
    ensures IsPass(d, points, centers, Pass(d, points, centers))
  {
    forall j | 0 <= j < |centers| ensures IsMoved(d, points, centers, Pass(d, points, centers)[j], j) {
      CenterIsMoved(d, points, centers, j);
    }
  }

  lemma CenterIsMoved(d: nat, points: seq<Point>, centers: seq<Point>, j: nat)
    requires j < |centers|
    ensures IsMoved(d, points, centers, MovedCenter(d, points, centers, j), j)
  {
    var a, members := AssignmentOf(d, points, centers), Members(d, points, centers, j);
    MembersOfAssignment(d, points, centers, j);
    if |members| > 0 { MeanIsMean(d, points, a, j, members); }
  }

  lemma MeanIsMean(d: nat, points: seq<Point>, a: seq<nat>, j: nat, members: set<int>)
    requires |a| == |points| && MemberCount(a, j, |a|) == |members| > 0
    requires forall k :: k in members <==> 0 <= k < |points| && a[k] == j
    ensures IsMeanOf(d, points, members, MemberMean(d, points, a, j))
  {
    forall i | 0 <= i < d ensures |members| as real * MemberMean(d, points, a, j)[i] == SumOver(points, members, i) {
      MeanOfMembers(d, points, a, j, members, i);
    }
  }

  lemma MembersOfAssignment(d: nat, points: seq<Point>, centers: seq<Point>, j: nat)
    requires j < |centers|
    ensures var a := AssignmentOf(d, points, centers);
      (forall k :: k in Members(d, points, centers, j) <==> 0 <= k < |points| && a[k] == j)
      && MemberCount(a, j, |a|) == |Members(d, points, centers, j)|
  {
    var a, members := AssignmentOf(d, points, centers), Members(d, points, centers, j);
    CountIsCardinality(a, j, |a|);
    forall k | 0 <= k < |points| ensures k in members <==> a[k] == j { NearestIff(d, points[k], centers, j); }
    assert members == set k | 0 <= k < |a| && a[k] == j;
  }

  lemma MeanOfMembers(d: nat, points: seq<Point>, a: seq<nat>, j: nat, members: set<int>, i: nat)
    requires |a| == |points| && i < d && MemberCount(a, j, |a|) == |members| > 0
    requires forall k :: k in members <==> 0 <= k < |points| && a[k] == j
    ensures |members| as real * MemberMean(d, points, a, j)[i] == SumOver(points, members, i)
  {
    TotalOfMembers(points, a, j, members, i);
    MeanTimesCount(SumOver(points, members, i), |members|);
  }

  lemma TotalOfMembers(points: seq<Point>, a: seq<nat>, j: nat, members: set<int>, i: nat)
    requires |a| == |points| && forall k :: k in members <==> 0 <= k < |points| && a[k] == j
    ensures Sum(|a|, MemberTerm(points, a, j, i)) == SumOver(points, members, i)
  {
    SumExt(|points|, MemberTerm(points, a, j, i),
      k => if 0 <= k < |points| && k in members then Coordinate(points[k], i) else 0.0);
  }

  lemma MeanTimesCount(total: real, count: nat)
    requires count > 0
    ensures count as real * (total / count as real) == total
  {
  }

  /** A record of `n` passes, one after another, from `start` to `final`. */
  ghost predicate IsHistory(d: nat, points: seq<Point>, history: seq<seq<Point>>, start: seq<Point>, n: nat,
                            final: seq<Point>) {
    && |history| == n + 1 && history[0] == start && history[n] == final
    && (forall i :: 0 <= i <= n ==> |history[i]| >= 1)
    && forall i :: 0 <= i < n ==> Follows(d, points, history, i)
  }

  ghost predicate Follows(d: nat, points: seq<Point>, history: seq<seq<Point>>, i: int)
    requires 0 <= i < |history| - 1 && |history[i]| >= 1
  {
    IsPass(d, points, history[i], history[i + 1])
  }

  lemma {:induction false} PassesHaveHistory(d: nat, points: seq<Point>, start: seq<Point>, n: nat)
    returns (history: seq<seq<Point>>)
    requires |start| >= 1
    ensures IsHistory(d, points, history, start, n, Passes(d, points, start, n))
  {
    if n == 0 {
      history := [start];
    } else {
      var earlier := PassesHaveHistory(d, points, start, n - 1);
      PassIsPass(d, points, earlier[n - 1]);
      history := earlier + [Passes(d, points, start, n)];
      HistoryGoesOn(d, points, earlier, start, n - 1, earlier[n - 1], Passes(d, points, start, n));
    }
  }

  lemma HistoryGoesOn(d: nat, points: seq<Point>, history: seq<seq<Point>>, start: seq<Point>, n: nat,
                      last: seq<Point>, next: seq<Point>)
    requires IsHistory(d, points, history, start, n, last) && |last| >= 1 && IsPass(d, points, last, next)
    ensures IsHistory(d, points, history + [next], start, n + 1, next)
  {
    forall i | 0 <= i < n + 1 ensures Follows(d, points, history + [next], i) {
      if i < n { assert Follows(d, points, history, i); }
    }
  }

  // ---------------------------------------------------------------- the mean minimises squared distance

  /** The squared deviation of member `k` of cluster `j` from `c`, in one coordinate. */
  function DeviationTerm(points: seq<Point>, a: seq<nat>, j: nat, i: int, c: real): int -> real {
    k => if 0 <= k < |a| && k < |points| && a[k] == j then Square(Coordinate(points[k], i) - c) else 0.0
  }

  /** What one member adds when the reference moves from `m` to `c`. */
  function Lift(v: real, c: real, m: real): real {
    (m - c) * (2.0 * v - (m + c))
  }

  function Shift(m: real, c: real, total: real, count: real): real {
    (m - c) * (2.0 * total - count * (m + c))
  }

  lemma SquareShift(v: real, c: real, m: real)
    ensures Square(v - c) - Square(v - m) == Lift(v, c, m)
  {
  }

  lemma OneMore(m: real, c: real, total: real, count: real, v: real)
    ensures Shift(m, c, total, count) + Lift(v, c, m) == Shift(m, c, total + v, count + 1.0)
  {
    var x, w := m - c, m + c;
    assert (count + 1.0) * w == count * w + w;
    var p, q := 2.0 * total - count * w, 2.0 * v - w;
    assert x * p + x * q == x * (p + q);
  }

  lemma NothingToShift(m: real, c: real)
    ensures Shift(m, c, 0.0, 0.0) == 0.0
  {
  }

  /** Moving the reference from `m` to `c` changes the deviations by (m - c) (2 S - N (m + c)). */
  lemma {:induction false} DeviationShift(points: seq<Point>, a: seq<nat>, j: nat, i: int, c: real, m: real, n: nat)
    requires n <= |a| <= |points|
    ensures Sum(n, DeviationTerm(points, a, j, i, c)) - Sum(n, DeviationTerm(points, a, j, i, m)) ==
      Shift(m, c, Sum(n, MemberTerm(points, a, j, i)), MemberCount(a, j, n) as real)
  {
    if n == 0 {
      NothingToShift(m, c);
    } else {
      DeviationShift(points, a, j, i, c, m, n - 1);
      var v := Coordinate(points[n - 1], i);
      SquareShift(v, c, m);
      OneMore(m, c, Sum(n - 1, MemberTerm(points, a, j, i)), MemberCount(a, j, n - 1) as real, v);
    }
  }

  /** The mean of the members is the least-squares reference point. */
  lemma MeanIsBest(points: seq<Point>, a: seq<nat>, j: nat, i: int, c: real, m: real)
    requires |a| == |points| && MemberCount(a, j, |a|) > 0
    requires m == Sum(|a|, MemberTerm(points, a, j, i)) / MemberCount(a, j, |a|) as real
    ensures Sum(|a|, DeviationTerm(points, a, j, i, m)) <= Sum(|a|, DeviationTerm(points, a, j, i, c))
  {
    DeviationShift(points, a, j, i, c, m, |a|);
    ShiftAtMean(m, c, Sum(|a|, MemberTerm(points, a, j, i)), MemberCount(a, j, |a|) as real);
  }

  lemma ShiftAtMean(m: real, c: real, total: real, count: real)
    requires count > 0.0 && m == total / count
    ensures Shift(m, c, total, count) >= 0.0
  {
    assert total == count * m;
    MeanFactor(m, c, count);
    SquareFactor(m - c, count);
  }

  lemma MeanFactor(m: real, c: real, count: real)
    ensures 2.0 * (count * m) - count * (m + c) == count * (m - c)
  {
  }

  lemma SquareFactor(x: real, count: real)
    requires count > 0.0
    ensures x * (count * x) >= 0.0
  {
    assert x * (count * x) == count * Square(x);
  }

  // ---------------------------------------------------------------- one pass never raises the potential

  /** The distance of point `k` to centre `j` when it belongs to cluster `j`, else nothing. */
  function ClusterTerm(d: nat, points: seq<Point>, a: seq<nat>, centers: seq<Point>): (int, int) -> real {
    (j, k) => if 0 <= k < |points| && k < |a| && 0 <= j < |centers| && a[k] == j
      then Distance(d, points[k], centers[j]) else 0.0
  }

  /** The squared distance of each point to the centre of the cluster it is assigned to. */
  function AssignedTerm(d: nat, points: seq<Point>, a: seq<nat>, centers: seq<Point>): int -> real {
    k => if 0 <= k < |points| && k < |a| && a[k] < |centers| then Distance(d, points[k], centers[a[k]]) else 0.0
  }

  function CoordinateTerm(points: seq<Point>, a: seq<nat>, j: nat, c: Point): (int, int) -> real {
    (i, k) => if 0 <= k < |a| && k < |points| && a[k] == j
      then Square(Coordinate(points[k], i) - Coordinate(c, i)) else 0.0
  }

  /** Summing cluster by cluster or point by point is the same. */
  lemma ByCluster(d: nat, points: seq<Point>, a: seq<nat>, centers: seq<Point>)
    requires |a| == |points| && forall k :: 0 <= k < |a| ==> a[k] < |centers|
    ensures Sum2(|centers|, |points|, ClusterTerm(d, points, a, centers)) ==
      Sum(|points|, AssignedTerm(d, points, a, centers))
  {
    var f := ClusterTerm(d, points, a, centers);
    var zero := (j: int) => 0.0;
    Sum2Swap(|centers|, |points|, f);
    forall k | 0 <= k < |points|
      ensures RowSum(|centers|, Transposed(f), k) == AssignedTerm(d, points, a, centers)(k)
    {
      SumUpdate(|centers|, a[k], zero, j => Transposed(f)(k, j));
      SumZero(|centers|, zero);
    }
    SumExt(|points|, k => RowSum(|centers|, Transposed(f), k), AssignedTerm(d, points, a, centers));
  }

  /** A cluster's total squared distance, coordinate by coordinate. */
  lemma ClusterByCoordinate(d: nat, points: seq<Point>, a: seq<nat>, centers: seq<Point>, j: nat)
    requires |a| == |points| && j < |centers|
    ensures RowSum(|points|, ClusterTerm(d, points, a, centers), j) ==
      Sum2(d, |points|, CoordinateTerm(points, a, j, centers[j]))
  {
    var g := CoordinateTerm(points, a, j, centers[j]);
    Sum2Swap(d, |points|, g);
    forall k | 0 <= k < |points| ensures RowSum(d, Transposed(g), k) == ClusterTerm(d, points, a, centers)(j, k) {
      if a[k] == j {
        SumExt(d, i => Transposed(g)(k, i), i => Square(Coordinate(points[k], i) - Coordinate(centers[j], i)));
      } else {
        SumZero(d, i => Transposed(g)(k, i));
      }
    }
    var f := ClusterTerm(d, points, a, centers);
    SumExt(|points|, k => RowSum(d, Transposed(g), k), k => f(j, k));
  }

  /** Moving one centre to its members' mean does not raise its cluster's total. */
  lemma MeanLowersCluster(d: nat, points: seq<Point>, a: seq<nat>, j: nat, c: Point, m: Point)
    requires |a| == |points| && MemberCount(a, j, |a|) > 0 && m == MemberMean(d, points, a, j)
    ensures Sum2(d, |points|, CoordinateTerm(points, a, j, m)) <= Sum2(d, |points|, CoordinateTerm(points, a, j, c))
  {
    var f, g := CoordinateTerm(points, a, j, m), CoordinateTerm(points, a, j, c);
    forall i | 0 <= i < d ensures RowSum(|points|, f, i) <= RowSum(|points|, g, i) {
      MeanIsBest(points, a, j, i, Coordinate(c, i), m[i]);
      SumExt(|points|, k => f(i, k), DeviationTerm(points, a, j, i, m[i]));
      SumExt(|points|, k => g(i, k), DeviationTerm(points, a, j, i, Coordinate(c, i)));
    }
    SumLe(d, i => RowSum(|points|, f, i), i => RowSum(|points|, g, i));
  }

  /** `moved` is one pass after `centers`, under the assignment `a`. */
  ghost predicate IsMove(d: nat, points: seq<Point>, a: seq<nat>, centers: seq<Point>, moved: seq<Point>) {
    && |moved| == |centers| && |a| == |points|
    && (forall j :: 0 <= j < |centers| ==>
          if MemberCount(a, j, |a|) > 0 then moved[j] == MemberMean(d, points, a, j) else moved[j] == centers[j])
  }

  lemma MoveOneCenter(d: nat, points: seq<Point>, a: seq<nat>, centers: seq<Point>, moved: seq<Point>, j: nat)
    requires IsMove(d, points, a, centers, moved) && j < |centers|
    ensures RowSum(|points|, ClusterTerm(d, points, a, moved), j) <=
      RowSum(|points|, ClusterTerm(d, points, a, centers), j)
  {
    ClusterByCoordinate(d, points, a, centers, j);
    ClusterByCoordinate(d, points, a, moved, j);
    if MemberCount(a, j, |a|) > 0 { MeanLowersCluster(d, points, a, j, centers[j], moved[j]); }
  }

  /** Keeping the assignment, moving the centres lowers the total distance to the assigned centres. */
  lemma MoveLowersAssigned(d: nat, points: seq<Point>, a: seq<nat>, centers: seq<Point>, moved: seq<Point>)
    requires IsMove(d, points, a, centers, moved) && forall k :: 0 <= k < |a| ==> a[k] < |centers|
    ensures Sum(|points|, AssignedTerm(d, points, a, moved)) <= Sum(|points|, AssignedTerm(d, points, a, centers))
  {
    ByCluster(d, points, a, centers);
    ByCluster(d, points, a, moved);
    var before, after := ClusterTerm(d, points, a, centers), ClusterTerm(d, points, a, moved);
    forall j | 0 <= j < |centers| ensures RowSum(|points|, after, j) <= RowSum(|points|, before, j) {
      MoveOneCenter(d, points, a, centers, moved, j);
    }
    SumLe(|centers|, j => RowSum(|points|, after, j), j => RowSum(|points|, before, j));
  }

  /** The potential is the total distance under the nearest assignment, and no other assignment has a smaller total. */
  lemma NearestAssignmentIsLeast(d: nat, points: seq<Point>, a: seq<nat>, centers: seq<Point>)
    requires |centers| >= 1 && |a| == |points| && forall k :: 0 <= k < |a| ==> a[k] < |centers|
    ensures Potential(d, points, centers) <= Sum(|points|, AssignedTerm(d, points, a, centers))
    ensures a == AssignmentOf(d, points, centers) ==>
              Potential(d, points, centers) == Sum(|points|, AssignedTerm(d, points, a, centers))
  {
    var near := i =>
      if 0 <= i < |points| then Distance(d, points[i], centers[Nearest(d, points[i], centers, |centers|)]) else 0.0;
    SumLe(|points|, near, AssignedTerm(d, points, a, centers));
    if a == AssignmentOf(d, points, centers) { SumExt(|points|, near, AssignedTerm(d, points, a, centers)); }
  }

  /** One pass, empty clusters included, never raises the total squared distance to the nearest centre. */
  lemma PassDescends(d: nat, points: seq<Point>, centers: seq<Point>)
    requires |centers| >= 1
    ensures Potential(d, points, Pass(d, points, centers)) <= Potential(d, points, centers)
  {
    var a, moved := AssignmentOf(d, points, centers), Pass(d, points, centers);
    NearestAssignmentIsLeast(d, points, a, centers);
    NearestAssignmentIsLeast(d, points, a, moved);
    assert IsMove(d, points, a, centers, moved);
    MoveLowersAssigned(d, points, a, centers, moved);
  }

  function PotentialAfter(d: nat, points: seq<Point>, centers: seq<Point>, n: nat): real
    requires |centers| >= 1
  {
    Potential(d, points, Passes(d, points, centers, n))
  }

  lemma NextPassDescends(d: nat, points: seq<Point>, centers: seq<Point>, n: nat)
    requires |centers| >= 1
    ensures PotentialAfter(d, points, centers, n + 1) <= PotentialAfter(d, points, centers, n)
  {
    PassDescends(d, points, Passes(d, points, centers, n));
  }

  lemma {:induction false} NonIncreasing(f: nat -> real, m: nat, n: nat)
    requires m <= n && forall k: nat :: f(k + 1) <= f(k)
    ensures f(n) <= f(m)
    decreases n
  {
    if m < n {
      NonIncreasing(f, m, n - 1);
      assert f((n - 1) + 1) <= f(n - 1);
    }
  }

  /** Over any number of passes the potential never rises. */
  lemma PassesDescend(d: nat, points: seq<Point>, centers: seq<Point>, m: nat, n: nat)
    requires |centers| >= 1 && m <= n
    ensures PotentialAfter(d, points, centers, n) <= PotentialAfter(d, points, centers, m)
  {
    var f := (k: nat) => PotentialAfter(d, points, centers, k);
    forall k: nat ensures f(k + 1) <= f(k) { NextPassDescends(d, points, centers, k); }
    NonIncreasing(f, m, n);
  }

  // ---------------------------------------------------------------- the program

  /** Assign every point to its nearest centre. */
  method Assign(d: nat, points: seq<Point>, centers: array<Point>) returns (a: seq<nat>)
    requires centers.Length >= 1
    ensures a == AssignmentOf(d, points, centers[..])
  {
    a := [];
    for i := 0 to |points|
      invariant |a| == i
      invariant forall k :: 0 <= k < i ==> a[k] == Nearest(d, points[k], centers[..], centers.Length)
    {
      var best := FindNearest(d, points[i], centers);
      a := a + [best];
    }
  }

  /** The first centre at least distance from a point. */
  method FindNearest(d: nat, x: Point, centers: array<Point>) returns (best: nat)
    requires centers.Length >= 1
    ensures best == Nearest(d, x, centers[..], centers.Length)
  {
    best := 0;
    for j := 1 to centers.Length
      invariant best == Nearest(d, x, centers[..], j)
    {
      if Distance(d, x, centers[j]) < Distance(d, x, centers[best]) { best := j; }
    }
  }

  /** Move every non-empty cluster's centre, in place, to the mean of its members. */
  method MoveCenters(d: nat, points: seq<Point>, centers: array<Point>, a: seq<nat>)
    requires centers.Length >= 1 && a == AssignmentOf(d, points, centers[..])
    modifies centers
    ensures centers[..] == Pass(d, points, old(centers[..]))
  {
    ghost var before := centers[..];
    for j := 0 to centers.Length
      invariant forall i :: 0 <= i < j ==> centers[i] == MovedCenter(d, points, before, i)
      invariant forall i :: j <= i < centers.Length ==> centers[i] == before[i]
    {
      if MemberCount(a, j, |a|) > 0 {
        centers[j] := MemberMean(d, points, a, j);
      }
    }
    assert centers[..] == Pass(d, points, before);
  }

  /** The chosen points, as initial centres. */
  function Start(points: seq<Point>, chosen: seq<nat>): (r: seq<Point>)
    requires forall j :: 0 <= j < |chosen| ==> chosen[j] < |points|
    ensures |r| == |chosen| && forall j :: 0 <= j < |r| ==> r[j] == points[chosen[j]]
  {
    seq(|chosen|, j requires 0 <= j < |chosen| => points[chosen[j]])
  }

  /** Lloyd's iteration from `k` chosen points; `chosen` stands for the seeded draw of distinct indices. */
  method LloydKMeans(d: nat, points: seq<Point>, chosen: seq<nat>, maxIter: nat) returns (centers: array<Point>)
    requires |chosen| >= 1 && forall j :: 0 <= j < |chosen| ==> chosen[j] < |points|
    ensures fresh(centers) && centers.Length == |chosen|
    ensures centers[..] == Passes(d, points, Start(points, chosen), maxIter)
    ensures NoHigherThan(d, points, Start(points, chosen), maxIter, centers[..])
    ensures exists history :: IsHistory(d, points, history, Start(points, chosen), maxIter, centers[..])
  {
    ghost var start := Start(points, chosen);
    centers := new Point[|chosen|](j requires 0 <= j < |chosen| => points[chosen[j]]);
    assert centers[..] == start;
    for pass := 0 to maxIter
      invariant centers[..] == Passes(d, points, start, pass)
    {
      OnePass(d, points, centers);
    }
    EndsLowest(d, points, start, maxIter);
    ghost var history := PassesHaveHistory(d, points, start, maxIter);
  }

  /** One pass over the points: assign, then move. */
  method OnePass(d: nat, points: seq<Point>, centers: array<Point>)
    requires centers.Length >= 1
    modifies centers
    ensures centers[..] == Pass(d, points, old(centers[..]))
  {
    var a := Assign(d, points, centers);
    MoveCenters(d, points, centers, a);
  }

  /** The final centres have a potential no higher than after any of the passes. */
  ghost predicate NoHigherThan(d: nat, points: seq<Point>, start: seq<Point>, last: nat, final: seq<Point>)
    requires |start| >= 1 && |final| >= 1
  {
    forall n :: 0 <= n <= last ==> Potential(d, points, final) <= PotentialAfter(d, points, start, n)
  }

  lemma EndsLowest(d: nat, points: seq<Point>, start: seq<Point>, last: nat)
    requires |start| >= 1
    ensures NoHigherThan(d, points, start, last, Passes(d, points, start, last))
  {
    forall n | 0 <= n <= last
      ensures Potential(d, points, Passes(d, points, start, last)) <= PotentialAfter(d, points, start, n)
    {
      PassesDescend(d, points, start, n, last);
    }
  }
}
