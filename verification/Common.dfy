/** Result types shared by the modules that model raising functions. */
module Outcomes {
  datatype Option<+T> = None | Some(value: T)

  datatype Result<+T, +E> = Ok(value: T) | Err(error: E)
}

/** Magnitudes, maxima and powers of two. */
module Numbers {
  function Abs(x: real): real {
    if x < 0.0 then -x else x
  }

  function Larger(a: real, b: real): real {
    if a < b then b else a
  }

  function LargerNat(a: nat, b: nat): nat {
    if a < b then b else a
  }

  function SmallerNat(a: nat, b: nat): nat {
    if a < b then a else b
  }

  function Pow2(k: nat): (r: nat)
    ensures r >= 1
  {
    if k == 0 then 1 else 2 * Pow2(k - 1)
  }
}

/** Finite sums of real-valued functions, and the few laws every other module uses. */
module Sums {
  function Sum(n: nat, f: int -> real): real {
    if n == 0 then 0.0 else Sum(n - 1, f) + f(n - 1)
  }

  lemma {:induction false} SumExt(n: nat, f: int -> real, g: int -> real)
    requires forall i :: 0 <= i < n ==> f(i) == g(i)
    ensures Sum(n, f) == Sum(n, g)
  {
    if n > 0 { SumExt(n - 1, f, g); }
  }

  lemma {:induction false} SumLe(n: nat, f: int -> real, g: int -> real)
    requires forall i :: 0 <= i < n ==> f(i) <= g(i)
    ensures Sum(n, f) <= Sum(n, g)
  {
    if n > 0 { SumLe(n - 1, f, g); }
  }

  lemma {:induction false} SumAdd(n: nat, f: int -> real, g: int -> real, h: int -> real)
    requires forall i :: 0 <= i < n ==> h(i) == f(i) + g(i)
    ensures Sum(n, h) == Sum(n, f) + Sum(n, g)
  {
    if n > 0 { SumAdd(n - 1, f, g, h); }
  }

  lemma {:induction false} SumSub(n: nat, f: int -> real, g: int -> real, h: int -> real)
    requires forall i :: 0 <= i < n ==> h(i) == f(i) - g(i)
    ensures Sum(n, h) == Sum(n, f) - Sum(n, g)
  {
    if n > 0 { SumSub(n - 1, f, g, h); }
  }

  lemma {:induction false} SumScale(n: nat, c: real, f: int -> real, g: int -> real)
    requires forall i :: 0 <= i < n ==> g(i) == c * f(i)
    ensures Sum(n, g) == c * Sum(n, f)
  {
    if n > 0 { SumScale(n - 1, c, f, g); }
  }

  lemma {:induction false} SumZero(n: nat, f: int -> real)
    requires forall i :: 0 <= i < n ==> f(i) == 0.0
    ensures Sum(n, f) == 0.0
  {
    if n > 0 { SumZero(n - 1, f); }
  }

  lemma {:induction false} SumConst(n: nat, c: real, f: int -> real)
    requires forall i :: 0 <= i < n ==> f(i) == c
    ensures Sum(n, f) == n as real * c
  {
    if n > 0 {
      SumConst(n - 1, c, f);
      OneMoreTime(n, c);
    }
  }

  lemma OneMoreTime(n: nat, c: real)
    requires n > 0
    ensures n as real * c == (n - 1) as real * c + c
  {
    assert n as real == (n - 1) as real + 1.0;
    assert ((n - 1) as real + 1.0) * c == (n - 1) as real * c + c;
  }

  lemma {:induction false} SumNonNeg(n: nat, f: int -> real)
    requires forall i :: 0 <= i < n ==> f(i) >= 0.0
    ensures Sum(n, f) >= 0.0
  {
    if n > 0 { SumNonNeg(n - 1, f); }
  }

  /** Changing one term changes the sum by exactly that difference. */
  lemma {:induction false} SumUpdate(n: nat, k: int, f: int -> real, g: int -> real)
    requires 0 <= k < n
    requires forall i :: 0 <= i < n && i != k ==> f(i) == g(i)
    ensures Sum(n, g) == Sum(n, f) + g(k) - f(k)
  {
    if k == n - 1 { SumExt(n - 1, f, g); } else { SumUpdate(n - 1, k, f, g); }
  }

  /** A sum with non-negative terms is at least any single term. */
  lemma {:induction false} SumAtLeastTerm(n: nat, k: int, f: int -> real)
    requires 0 <= k < n
    requires forall i :: 0 <= i < n ==> f(i) >= 0.0
    ensures f(k) <= Sum(n, f)
  {
    if k == n - 1 { SumNonNeg(n - 1, f); } else { SumAtLeastTerm(n - 1, k, f); }
  }

  /** Splitting the range of summation. */
  lemma {:induction false} SumSplit(n: nat, m: nat, f: int -> real, g: int -> real)
    requires forall i :: 0 <= i < m ==> g(i) == f(n + i)
    ensures Sum(n + m, f) == Sum(n, f) + Sum(m, g)
  {
    if m > 0 { SumSplit(n, m - 1, f, g); }
  }

  /** The sum of row `i` of a two-argument function. */
  function RowSum(m: nat, f: (int, int) -> real, i: int): real {
    Sum(m, j => f(i, j))
  }

  function Sum2(n: nat, m: nat, f: (int, int) -> real): real {
    Sum(n, i => RowSum(m, f, i))
  }

  lemma RowSumExt(m: nat, f: (int, int) -> real, g: (int, int) -> real, i: int)
    requires forall j :: 0 <= j < m ==> f(i, j) == g(i, j)
    ensures RowSum(m, f, i) == RowSum(m, g, i)
  {
    SumExt(m, j => f(i, j), j => g(i, j));
  }

  lemma Sum2Ext(n: nat, m: nat, f: (int, int) -> real, g: (int, int) -> real)
    requires forall i, j :: 0 <= i < n && 0 <= j < m ==> f(i, j) == g(i, j)
    ensures Sum2(n, m, f) == Sum2(n, m, g)
  {
    forall i | 0 <= i < n ensures RowSum(m, f, i) == RowSum(m, g, i) {
      RowSumExt(m, f, g, i);
    }
    SumExt(n, i => RowSum(m, f, i), i => RowSum(m, g, i));
  }

  lemma Sum2Le(n: nat, m: nat, f: (int, int) -> real, g: (int, int) -> real)
    requires forall i, j :: 0 <= i < n && 0 <= j < m ==> f(i, j) <= g(i, j)
    ensures Sum2(n, m, f) <= Sum2(n, m, g)
  {
    forall i | 0 <= i < n ensures RowSum(m, f, i) <= RowSum(m, g, i) {
      SumLe(m, j => f(i, j), j => g(i, j));
    }
    SumLe(n, i => RowSum(m, f, i), i => RowSum(m, g, i));
  }

  lemma Sum2Add(n: nat, m: nat, f: (int, int) -> real, g: (int, int) -> real, h: (int, int) -> real)
    requires forall i, j :: 0 <= i < n && 0 <= j < m ==> h(i, j) == f(i, j) + g(i, j)
    ensures Sum2(n, m, h) == Sum2(n, m, f) + Sum2(n, m, g)
  {
    forall i | 0 <= i < n ensures RowSum(m, h, i) == RowSum(m, f, i) + RowSum(m, g, i) {
      SumAdd(m, j => f(i, j), j => g(i, j), j => h(i, j));
    }
    SumAdd(n, i => RowSum(m, f, i), i => RowSum(m, g, i), i => RowSum(m, h, i));
  }

  lemma Sum2Const(n: nat, m: nat, c: real, f: (int, int) -> real)
    requires forall i, j :: 0 <= i < n && 0 <= j < m ==> f(i, j) == c
    ensures Sum2(n, m, f) == n as real * (m as real * c)
  {
    forall i | 0 <= i < n ensures RowSum(m, f, i) == m as real * c {
      SumConst(m, c, j => f(i, j));
    }
    SumConst(n, m as real * c, i => RowSum(m, f, i));
  }

  function Transposed(f: (int, int) -> real): (int, int) -> real {
    (j, i) => f(i, j)
  }

  /** The order of a double summation does not matter. */
  lemma {:induction false} Sum2Swap(n: nat, m: nat, f: (int, int) -> real)
    ensures Sum2(n, m, f) == Sum2(m, n, Transposed(f))
  {
    var g := Transposed(f);
    if n == 0 {
      SumZero(m, j => RowSum(0, g, j));
    } else {
      Sum2Swap(n - 1, m, f);
      var last := j => f(n - 1, j);
      forall j | 0 <= j < m ensures RowSum(n, g, j) == RowSum(n - 1, g, j) + last(j) {}
      SumAdd(m, j => RowSum(n - 1, g, j), last, j => RowSum(n, g, j));
      SumExt(m, last, j => f(n - 1, j));
    }
  }

  /** Changing one cell changes the double sum by exactly that difference. */
  lemma Sum2Update(n: nat, m: nat, r: int, c: int, f: (int, int) -> real, g: (int, int) -> real)
    requires 0 <= r < n && 0 <= c < m
    requires forall i, j :: 0 <= i < n && 0 <= j < m && !(i == r && j == c) ==> f(i, j) == g(i, j)
    ensures Sum2(n, m, g) == Sum2(n, m, f) + g(r, c) - f(r, c)
  {
    forall i | 0 <= i < n && i != r ensures RowSum(m, f, i) == RowSum(m, g, i) {
      RowSumExt(m, f, g, i);
    }
    SumUpdate(m, c, j => f(r, j), j => g(r, j));
    SumUpdate(n, r, i => RowSum(m, f, i), i => RowSum(m, g, i));
  }
}

/** Dot products and systems of linear inequalities. */
module Vectors {
  import opened Sums

  function Dot(row: seq<real>, x: seq<real>): real {
    Sum(|row|, i => if 0 <= i < |row| && i < |x| then row[i] * x[i] else 0.0)
  }

  predicate Binary(x: seq<real>) {
    forall i :: 0 <= i < |x| ==> x[i] == 0.0 || x[i] == 1.0
  }

  predicate Satisfies(rows: seq<seq<real>>, rhs: seq<real>, x: seq<real>) {
    |rows| == |rhs| && forall i :: 0 <= i < |rows| ==> Dot(rows[i], x) <= rhs[i]
  }

  lemma SatisfiesSplit(rows: seq<seq<real>>, rhs: seq<real>, x: seq<real>, k: nat)
    requires |rows| == |rhs| && k <= |rows|
    ensures Satisfies(rows, rhs, x) <==> Satisfies(rows[..k], rhs[..k], x) && Satisfies(rows[k..], rhs[k..], x)
  {
    if Satisfies(rows[..k], rhs[..k], x) && Satisfies(rows[k..], rhs[k..], x) {
      forall i | 0 <= i < |rows| ensures Dot(rows[i], x) <= rhs[i] {
        if i < k { assert rows[..k][i] == rows[i]; } else { assert rows[k..][i - k] == rows[i]; }
      }
    }
  }

  /** A dot product of concatenations is the sum of the dot products of the parts. */
  lemma DotConcat(a: seq<real>, b: seq<real>, x: seq<real>, y: seq<real>)
    requires |a| == |x|
    ensures Dot(a + b, x + y) == Dot(a, x) + Dot(b, y)
  {
    var f := i => if 0 <= i < |a + b| && i < |x + y| then (a + b)[i] * (x + y)[i] else 0.0;
    var g := i => if 0 <= i < |b| && i < |y| then b[i] * y[i] else 0.0;
    SumSplit(|a|, |b|, f, g);
    SumExt(|a|, f, i => if 0 <= i < |a| && i < |x| then a[i] * x[i] else 0.0);
  }

  /** Dot products are linear in the row. */
  lemma DotSub(a: seq<real>, b: seq<real>, r: seq<real>, x: seq<real>)
    requires |a| == |b| == |r|
    requires forall i :: 0 <= i < |r| ==> r[i] == a[i] - b[i]
    ensures Dot(r, x) == Dot(a, x) - Dot(b, x)
  {
    var f := i => if 0 <= i < |a| && i < |x| then a[i] * x[i] else 0.0;
    var g := i => if 0 <= i < |b| && i < |x| then b[i] * x[i] else 0.0;
    var h := i => if 0 <= i < |r| && i < |x| then r[i] * x[i] else 0.0;
    forall i | 0 <= i < |r| ensures h(i) == f(i) - g(i) {
      if i < |x| { Distribute(a[i], b[i], x[i]); }
    }
    SumSub(|r|, f, g, h);
  }

  lemma Distribute(a: real, b: real, x: real)
    ensures (a - b) * x == a * x - b * x
  {
  }

  lemma DotZero(a: seq<real>, x: seq<real>)
    requires forall i :: 0 <= i < |a| ==> a[i] == 0.0
    ensures Dot(a, x) == 0.0
  {
    SumZero(|a|, i => if 0 <= i < |a| && i < |x| then a[i] * x[i] else 0.0);
  }

  lemma DotSingle(a: real, x: real)
    ensures Dot([a], [x]) == a * x
  {
    var f := i => if 0 <= i < |[a]| && i < |[x]| then [a][i] * [x][i] else 0.0;
    assert Sum(1, f) == Sum(0, f) + f(0);
  }

  function Constant(n: nat, v: real): (r: seq<real>)
    ensures |r| == n && forall i :: 0 <= i < n ==> r[i] == v
  {
    seq(n, i => v)
  }

  function Zeros(n: nat): (r: seq<real>)
    ensures |r| == n && forall i :: 0 <= i < n ==> r[i] == 0.0
  {
    Constant(n, 0.0)
  }

  function UnitRow(n: nat, k: int, v: real): (r: seq<real>)
    ensures |r| == n && forall i :: 0 <= i < n ==> r[i] == if i == k then v else 0.0
  {
    seq(n, i => if i == k then v else 0.0)
  }

  function Negated(v: seq<real>): (r: seq<real>)
    ensures |r| == |v| && forall i :: 0 <= i < |r| ==> r[i] == -v[i]
  {
    seq(|v|, i requires 0 <= i < |v| => -v[i])
  }

  lemma DotUnit(n: nat, k: int, v: real, x: seq<real>)
    requires |x| == n && 0 <= k < n
    ensures Dot(UnitRow(n, k, v), x) == v * x[k]
  {
    var zero := (i: int) => 0.0;
    var row := UnitRow(n, k, v);
    SumUpdate(n, k, zero, i => if 0 <= i < |row| && i < |x| then row[i] * x[i] else 0.0);
    SumZero(n, zero);
  }

  lemma DotNegated(v: seq<real>, x: seq<real>)
    ensures Dot(Negated(v), x) == -Dot(v, x)
  {
    DotSub(Zeros(|v|), v, Negated(v), x);
    DotZero(Zeros(|v|), x);
  }
}

/** Rounding to the nearest integer, ties to even. */
module Rounding {
  function RoundHalfEven(x: real): (r: int)
    ensures -0.5 <= x - r as real <= 0.5
    ensures x - r as real == 0.5 || x - r as real == -0.5 ==> r % 2 == 0
  {
    var f := x.Floor;
    var d := x - f as real;
    if d < 0.5 then f else if d > 0.5 then f + 1 else if f % 2 == 0 then f else f + 1
  }
}

/** Mixed-integer linear programs, and what their solver promises. */
module MixedInteger {
  import opened Outcomes
  import opened Vectors

  datatype Bound = Bound(lo: Option<real>, hi: Option<real>)

  /** Maximise or minimise `objective` over the points satisfying every row and bound, the `integer` coordinates
      integral. */
  datatype Program = Program(
    objective: seq<real>, rows: seq<seq<real>>, rhs: seq<real>, bounds: seq<Bound>, integer: set<int>, maximise: bool)

  /** A whole number between 0 and 1 is 0 or 1. */
  lemma UnitInteger(v: real)
    requires v == v.Floor as real && 0.0 <= v <= 1.0
    ensures v == 0.0 || v == 1.0
  {
  }

  predicate WithinBound(b: Bound, v: real) {
    (b.lo.Some? ==> b.lo.value <= v) && (b.hi.Some? ==> v <= b.hi.value)
  }

  ghost predicate FeasiblePoint(p: Program, z: seq<real>) {
    && |z| == |p.objective| == |p.bounds| && Satisfies(p.rows, p.rhs, z)
    && (forall i :: 0 <= i < |z| ==> WithinBound(p.bounds[i], z[i]))
    && (forall i :: 0 <= i < |z| && i in p.integer ==> z[i] == z[i].Floor as real)
  }

  ghost predicate NoBetter(p: Program, z: seq<real>, y: seq<real>) {
    if p.maximise then Dot(p.objective, y) <= Dot(p.objective, z) else Dot(p.objective, z) <= Dot(p.objective, y)
  }

  ghost predicate OptimalPoint(p: Program, z: seq<real>) {
    FeasiblePoint(p, z) && forall y :: FeasiblePoint(p, y) ==> NoBetter(p, z, y)
  }

  /** Every variable has both bounds, so the feasible region is bounded. */
  ghost predicate Boxed(p: Program) {
    forall i :: 0 <= i < |p.bounds| ==> p.bounds[i].lo.Some? && p.bounds[i].hi.Some?
  }

  /** The solver's contract on bounded programs: whatever it answers is optimal, and it answers when some point is
      feasible (a closed bounded region that is not empty has an optimum). */
  ghost predicate SolvesBoxed(solve: Program -> Option<seq<real>>) {
    forall p :: (solve(p).Some? ==> OptimalPoint(p, solve(p).value)) &&
                (Boxed(p) && (exists z :: FeasiblePoint(p, z)) ==> solve(p).Some?)
  }

  /** The solver's contract: it answers with an optimal point whenever there is one, and with nothing otherwise. */
  ghost predicate SolvesExactly(solve: Program -> Option<seq<real>>) {
    forall p ::
      (solve(p).Some? ==> OptimalPoint(p, solve(p).value)) && (forall z :: OptimalPoint(p, z) ==> solve(p).Some?)
  }
}

/** Rectangular matrices of reals as values, and their in-place counterpart, `array2<real>`. */
module Matrices {
  type Matrix = seq<seq<real>>

  predicate Shape(a: Matrix, n: nat, m: nat) {
    |a| == n && forall i :: 0 <= i < n ==> |a[i]| == m
  }

  /** Total element access: cells outside the matrix read as zero. */
  function At(a: Matrix, i: int, j: int): real {
    if 0 <= i < |a| && 0 <= j < |a[i]| then a[i][j] else 0.0
  }

  function Put(a: Matrix, i: nat, j: nat, x: real): (r: Matrix)
    requires i < |a| && j < |a[i]|
    ensures |r| == |a| && forall k :: 0 <= k < |a| ==> |r[k]| == |a[k]|
    ensures forall p, q :: At(r, p, q) == if p == i && q == j then x else At(a, p, q)
  {
    a[i := a[i][j := x]]
  }

  /** The matrix value an `array2` holds. */
  ghost function View(a: array2<real>): (r: Matrix)
    reads a
    ensures Shape(r, a.Length0, a.Length1)
    ensures forall i, j :: 0 <= i < a.Length0 && 0 <= j < a.Length1 ==> r[i][j] == a[i, j]
  {
    seq(a.Length0, i requires 0 <= i < a.Length0 reads a =>
      seq(a.Length1, j requires 0 <= j < a.Length1 reads a => a[i, j]))
  }

  lemma MatrixExt(a: Matrix, b: Matrix, n: nat, m: nat)
    requires Shape(a, n, m) && Shape(b, n, m)
    requires forall i, j :: 0 <= i < n && 0 <= j < m ==> At(a, i, j) == At(b, i, j)
    ensures a == b
  {
    forall i | 0 <= i < n ensures a[i] == b[i] {
      forall j | 0 <= j < m ensures a[i][j] == b[i][j] {
        assert At(a, i, j) == At(b, i, j);
      }
    }
  }

  /** One in-place cell write, stated on the matrix value. */
  method Write(a: array2<real>, i: nat, j: nat, x: real)
    requires i < a.Length0 && j < a.Length1
    modifies a
    ensures View(a) == Put(old(View(a)), i, j, x)
  {
    ghost var before := View(a);
    a[i, j] := x;
    var after := Put(before, i, j, x);
    forall p, q | 0 <= p < a.Length0 && 0 <= q < a.Length1 ensures At(View(a), p, q) == At(after, p, q) {}
    MatrixExt(View(a), after, a.Length0, a.Length1);
  }
}

/** Octets. */
module ByteStrings {
  newtype byte = x: int | 0 <= x < 256

  type Bytes = seq<byte>
}

/** Characters of a text. */
module Characters {
  /** What stripping a text removes from its ends. */
  predicate IsSpace(c: char) {
    ('\U{9}' <= c <= '\U{d}') || ('\U{1c}' <= c <= ' ') || c in {'\U{85}', '\U{a0}', '\U{1680}'}
    || ('\U{2000}' <= c <= '\U{200a}') || c in {'\U{2028}', '\U{2029}', '\U{202f}', '\U{205f}', '\U{3000}'}
  }
}
